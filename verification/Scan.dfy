// The initial scan: what one walk of a tree does to the store, batch by batch, and
// what any process kill during it leaves behind.
module Scan {
  import opened Tables
  import opened PathTree
  import opened Paths
  import opened Recording

  const BATCH_SIZE: nat := 1024

  /** What the walker yields: an entry that could not be listed or stat'd, or one that
      could, with its path below the root (empty for the root itself). */
  datatype Item =
    | Unreadable
    | Entry(path: Path, isDir: bool, len: int, mtime: Option<int>, at: int)

  datatype Summary = Summary(filesSeen: nat, dirsSeen: nat, eventsRecorded: nat, skipped: nat)

  // ------------------------------------------------------- specification

  /** `record_entry`: the entry's row and, if it is a change, its event. */
  function Observe(t: Tree, rootId: FileId, item: Item): (Tree, Option<Event>)
    requires item.Entry? && item.path != []
  {
    var (t1, dir) := EnsureDirs(t, Some(rootId), item.path[..|item.path| - 1]);
    var size := SizeOf(item.isDir, item.len);
    var (t2, id, kind) := RecordAt(t1, dir.value, item.path[|item.path| - 1], item.isDir, size, item.mtime);
    (t2, if kind.Some? then Some(NewEvent(id, kind.value, item.at, size)) else None)
  }

  predicate Recordable(item: Item) {
    item.Entry? && item.path != []
  }

  /** One entry recorded with its event at once: the meaning of a scan, batching aside. */
  function Step(db: Db, rootId: FileId, item: Item): Db {
    if !Recordable(item) then db else
    var (t, event) := Observe(db.tree, rootId, item);
    Db(t, if event.Some? then db.events + [event.value] else db.events)
  }

  function Walk(db: Db, rootId: FileId, items: seq<Item>): Db {
    if items == [] then db else Step(Walk(db, rootId, items[..|items| - 1]), rootId, items[|items| - 1])
  }

  /** The store once the root's own chain is ensured. */
  function Entered(db: Db, root: Path): (Db, FileId)
    requires root != []
  {
    var (t, id) := EnsureDirs(db.tree, None, root);
    (Db(t, db.events), id.value)
  }

  function FullScan(db: Db, root: Path, items: seq<Item>): Db
    requires root != []
  {
    Walk(Entered(db, root).0, Entered(db, root).1, items)
  }

  /** A content the file can have when a scan is killed: unchanged, partway through the
      root's chain, or at the commit after some entries. */
  ghost predicate ScanPoint(db: Db, root: Path, items: seq<Item>, d: Db)
    requires root != []
  {
    || d == db
    || (d.events == db.events && EnsurePoint(db.tree, None, root, d.tree))
    || CommitPoint(Entered(db, root).0, Entered(db, root).1, items, d)
  }

  ghost predicate CommitPoint(db: Db, rootId: FileId, items: seq<Item>, d: Db) {
    exists k :: 0 <= k <= |items| && d == Walk(db, rootId, items[..k])
  }

  function Seen(items: seq<Item>, isDir: bool): nat {
    if items == [] then 0 else
    var last := items[|items| - 1];
    Seen(items[..|items| - 1], isDir) + if Recordable(last) && last.isDir == isDir then 1 else 0
  }

  function Skipped(items: seq<Item>): nat {
    if items == [] then 0 else Skipped(items[..|items| - 1]) + if items[|items| - 1].Unreadable? then 1 else 0
  }

  /** The counts are those of the items themselves. */
  lemma {:induction false} SeenCounts(items: seq<Item>, isDir: bool)
    ensures Seen(items, isDir) == |set i | 0 <= i < |items| && Recordable(items[i]) && items[i].isDir == isDir|
  {
    var all := set i | 0 <= i < |items| && Recordable(items[i]) && items[i].isDir == isDir;
    if items == [] {
      assert all == {};
    } else {
      var n := |items| - 1;
      var init := items[..n];
      SeenCounts(init, isDir);
      assert all - {n} == set i | 0 <= i < |init| && Recordable(init[i]) && init[i].isDir == isDir;
    }
  }

  lemma {:induction false} SkippedCounts(items: seq<Item>)
    ensures Skipped(items) == |set i | 0 <= i < |items| && items[i].Unreadable?|
  {
    var all := set i | 0 <= i < |items| && items[i].Unreadable?;
    if items == [] {
      assert all == {};
    } else {
      var n := |items| - 1;
      var init := items[..n];
      SkippedCounts(init);
      assert all - {n} == set i | 0 <= i < |init| && init[i].Unreadable?;
    }
  }

  predicate LimitReached(items: seq<Item>, max: Option<nat>, n: nat)
    requires n <= |items|
  {
    max.Some? && Seen(items[..n], false) + Seen(items[..n], true) >= max.value
  }

  /** How many items are walked: the scan stops before the first item, from the i-th on, at
      which the files and directories seen reach the limit. */
  function Admitted(items: seq<Item>, max: Option<nat>, i: nat): (n: nat)
    requires i <= |items|
    ensures i <= n <= |items|
    ensures n < |items| ==> LimitReached(items, max, n)
    ensures forall j :: i <= j < n ==> !LimitReached(items, max, j)
    decreases |items| - i
  {
    if i == |items| || LimitReached(items, max, i) then i
    else Admitted(items, max, i + 1)
  }

  /** The first `n` items that are entries below the root. */
  function Listed(items: seq<Item>, n: nat): set<nat>
    requires n <= |items|
  {
    set i: nat | i < n && Recordable(items[i])
  }

  lemma {:induction false} SeenBoth(items: seq<Item>, n: nat)
    requires n <= |items|
    ensures Seen(items[..n], false) + Seen(items[..n], true) == |Listed(items, n)|
  {
    if n == 0 {
      assert Listed(items, n) == {};
    } else {
      SeenBoth(items, n - 1);
      ListedMore(items, n - 1);
      assert items[..n][..n - 1] == items[..n - 1];
    }
  }

  lemma ListedMore(items: seq<Item>, n: nat)
    requires n < |items|
    ensures |Listed(items, n + 1)| == |Listed(items, n)| + if Recordable(items[n]) then 1 else 0
  {
    assert Listed(items, n + 1) == Listed(items, n) + if Recordable(items[n]) then {n} else {};
  }

  /** A limited walk goes on to the very item at which as many entries were recorded as the
      limit allows. */
  lemma AdmittedExact(items: seq<Item>, max: Option<nat>)
    ensures max.None? ==> Admitted(items, max, 0) == |items|
    ensures max.Some? ==>
              var n := Admitted(items, max, 0);
              && |Listed(items, n)| <= max.value && (n < |items| ==> |Listed(items, n)| == max.value)
              && forall j :: 0 <= j < n ==> |Listed(items, j)| < max.value
  {
    var n := Admitted(items, max, 0);
    forall j | 0 <= j <= n ensures max.Some? ==> (LimitReached(items, max, j) <==> |Listed(items, j)| >= max.value) {
      SeenBoth(items, j);
    }
    SeenBoth(items, n);
    if n == 0 {
      assert Listed(items, 0) == {};
    } else if max.Some? {
      ListedMore(items, n - 1);
      assert !LimitReached(items, max, n - 1);
    }
  }

  // ------------------------------------------------------------ soundness

  /** The entry's row, and that the event, if any, is a change of this very row. */
  ghost predicate Observed(u: Tree, event: Option<Event>, root: Path, item: Item, id: FileId)
    requires Recordable(item)
  {
    && RowIs(u, id, root + item.path, SizeOf(item.isDir, item.len), item.mtime)
    && (event.Some? ==> !item.isDir && exists kind :: event.value == NewEvent(id, kind, item.at, Some(item.len)))
  }

  lemma ObserveFacts(t: Tree, rootId: FileId, root: Path, item: Item) returns (id: FileId)
    requires Valid(t) && LivePath(t, rootId, root) && Recordable(item)
    ensures var (u, event) := Observe(t, rootId, item);
            Valid(u) && Grows(t, u) && LivePath(u, rootId, root) && Observed(u, event, root, item, id)
  {
    var dirs := item.path[..|item.path| - 1];
    var name := item.path[|item.path| - 1];
    assert item.path == dirs + [name];
    assert root + dirs + [name] == root + item.path;
    EnsureDirsFacts(t, Some(rootId), root, dirs);
    var (t1, dir) := EnsureDirs(t, Some(rootId), dirs);
    var size := SizeOf(item.isDir, item.len);
    RecordAtFacts(t1, dir.value, root + dirs, name, item.isDir, size, item.mtime);
    var (u, row, kind) := RecordAt(t1, dir.value, name, item.isDir, size, item.mtime);
    GrowsTransitive(t, t1, u);
    GrowsLivePath(t, u, rootId, root);
    id := row;
    var event := Observe(t, rootId, item).1;
    assert event.Some? ==> event.value == NewEvent(id, kind.value, item.at, Some(item.len));
  }

  lemma StepSound(db: Db, rootId: FileId, root: Path, item: Item)
    requires Sound(db) && LivePath(db.tree, rootId, root)
    ensures var d := Step(db, rootId, item);
            Sound(d) && Grows(db.tree, d.tree) && LivePath(d.tree, rootId, root)
  {
    if Recordable(item) {
      var _ := ObserveFacts(db.tree, rootId, root, item);
    }
  }

  lemma {:induction false} WalkSound(db: Db, rootId: FileId, root: Path, items: seq<Item>)
    requires Sound(db) && LivePath(db.tree, rootId, root)
    ensures var d := Walk(db, rootId, items);
            Sound(d) && Grows(db.tree, d.tree) && LivePath(d.tree, rootId, root)
  {
    if items != [] {
      var init := items[..|items| - 1];
      WalkSound(db, rootId, root, init);
      var d := Walk(db, rootId, init);
      StepSound(d, rootId, root, items[|items| - 1]);
      GrowsTransitive(db.tree, d.tree, Walk(db, rootId, items).tree);
    }
  }

  lemma EnteredSound(db: Db, root: Path)
    requires Sound(db) && root != []
    ensures var (d, rootId) := Entered(db, root);
            Sound(d) && Grows(db.tree, d.tree) && LivePath(d.tree, rootId, root)
  {
    EnsureDirsFacts(db.tree, None, [], root);
    assert [] + root == root;
  }

  /** Whatever statement a scan is killed at, the store it leaves is sound. */
  lemma KilledScanSound(db: Db, root: Path, items: seq<Item>, d: Db)
    requires Sound(db) && root != [] && ScanPoint(db, root, items, d)
    ensures Sound(d) && Extends(db.tree, d.tree) && db.events <= d.events
  {
    var (entered, rootId) := Entered(db, root);
    EnteredSound(db, root);
    if d.events == db.events && EnsurePoint(db.tree, None, root, d.tree) {
      EnsurePointValid(db.tree, None, [], root, d.tree);
    } else if d != db {
      var k :| 0 <= k <= |items| && d == Walk(entered, rootId, items[..k]);
      WalkSound(entered, rootId, root, items[..k]);
      GrowsTransitive(db.tree, entered.tree, d.tree);
      WalkAppends(entered, rootId, items[..k]);
    }
  }

  lemma {:induction false} WalkAppends(db: Db, rootId: FileId, items: seq<Item>)
    ensures db.events <= Walk(db, rootId, items).events
  {
    if items != [] {
      WalkAppends(db, rootId, items[..|items| - 1]);
    }
  }

  // ----------------------------------------------------------- settlement

  datatype Node = Node(isDir: bool, len: int, mtime: Option<int>)

  /** The observed tree: paths below the root. A file has nothing below it. */
  type Disk = map<Path, Node>

  ghost predicate DiskOk(disk: Disk) {
    && [] !in disk
    && forall p, q :: p in disk && q in disk && p < q ==> disk[p].isDir
  }

  predicate IsFile(disk: Disk, p: Path) {
    p in disk && !disk[p].isDir
  }

  /** Items report the tree truthfully, in any order and perhaps not all of it. */
  ghost predicate Lists(items: seq<Item>, disk: Disk) {
    forall i :: 0 <= i < |items| && Recordable(items[i]) ==> Reports(items[i], disk)
  }

  predicate Reports(item: Item, disk: Disk)
    requires Recordable(item)
  {
    item.path in disk && disk[item.path] == Node(item.isDir, item.len, item.mtime)
  }

  /** ... and every file is among them. */
  ghost predicate Covers(items: seq<Item>, disk: Disk) {
    forall p :: IsFile(disk, p) ==> ListsFile(items, p)
  }

  ghost predicate ListsFile(items: seq<Item>, p: Path) {
    exists i :: 0 <= i < |items| && Recordable(items[i]) && items[i].path == p
  }

  /** The file's row is live under its path and holds its size and mtime. */
  ghost predicate Settled(t: Tree, root: Path, disk: Disk, p: Path)
    requires p in disk
  {
    exists id: FileId :: RowIs(t, id, root + p, Some(disk[p].len), disk[p].mtime)
  }

  lemma PrefixBelow(root: Path, p: Path, q: Path)
    ensures root + p <= root + q <==> p <= q
    ensures root + p == root + q <==> p == q
  {
    assert (root + p)[|root|..] == p && (root + q)[|root|..] == q;
    if p <= q {
      assert q == p + q[|p|..];
      assert root + q == root + p + q[|p|..];
    }
    if root + p <= root + q {
      assert (root + q)[..|root + p|][|root|..] == p;
      assert (root + q)[|root|..|root + p|] == q[..|p|];
    }
  }

  /** No entry of the tree disturbs the row of a file other than its own, nor, saying the
      same of it again, its own. */
  lemma ObserveKeepsSettled(t: Tree, rootId: FileId, root: Path, disk: Disk, item: Item, p: Path)
    requires Valid(t) && LivePath(t, rootId, root) && DiskOk(disk)
    requires Recordable(item) && Reports(item, disk)
    requires IsFile(disk, p) && Settled(t, root, disk, p)
    ensures Settled(Observe(t, rootId, item).0, root, disk, p)
  {
    var id: FileId :| RowIs(t, id, root + p, Some(disk[p].len), disk[p].mtime);
    var own := ObserveFacts(t, rootId, root, item);
    var u := Observe(t, rootId, item).0;
    GrowsLivePath(t, u, id, root + p);
    if item.path == p {
      assert Settled(u, root, disk, p);
    } else {
      ObserveFrame(t, rootId, root, disk, item, p, id);
      assert RowIs(u, id, root + p, Some(disk[p].len), disk[p].mtime);
    }
  }

  lemma ObserveFrame(t: Tree, rootId: FileId, root: Path, disk: Disk, item: Item, p: Path, id: FileId)
    requires Valid(t) && LivePath(t, rootId, root) && DiskOk(disk)
    requires Recordable(item) && Reports(item, disk) && IsFile(disk, p) && item.path != p
    requires LivePath(t, id, root + p)
    ensures var u := Observe(t, rootId, item).0;
            id < |u.files| && u.files[id] == t.files[id]
  {
    var dirs := item.path[..|item.path| - 1];
    var name := item.path[|item.path| - 1];
    assert item.path == dirs + [name];
    PrefixBelow(root, p, dirs);
    PrefixBelow(root, p, item.path);
    LivePathIsPath(t, id, root + p);
    EnsureDirsFrame(t, Some(rootId), root, dirs, id, root + p);
    EnsureDirsFacts(t, Some(rootId), root, dirs);
    var (t1, dir) := EnsureDirs(t, Some(rootId), dirs);
    GrowsLivePath(t, t1, id, root + p);
    assert root + dirs + [name] == root + item.path;
    RecordAtFrame(t1, dir.value, root + dirs, name, item, id, root + p);
  }

  lemma RecordAtFrame(t: Tree, dir: FileId, dirPath: Path, name: string, item: Item, id: FileId, at: Path)
    requires Valid(t) && LivePath(t, dir, dirPath) && item.Entry?
    requires LivePath(t, id, at) && at != dirPath + [name]
    ensures var u := RecordAt(t, dir, name, item.isDir, SizeOf(item.isDir, item.len), item.mtime).0;
            id < |u.files| && u.files[id] == t.files[id]
  {
    var size := SizeOf(item.isDir, item.len);
    RecordAtFacts(t, dir, dirPath, name, item.isDir, size, item.mtime);
    var (u, touched, _) := RecordAt(t, dir, name, item.isDir, size, item.mtime);
    if id == touched {
      GrowsLivePath(t, u, id, at);
      LivePathIsPath(u, id, at);
      LivePathIsPath(u, id, dirPath + [name]);
      PathUnique(u, id, at, dirPath + [name]);
      assert false;
    }
  }

  /** Once walked, a file is settled and stays settled to the end of the scan. */
  lemma {:induction false} WalkSettles(db: Db, rootId: FileId, root: Path, disk: Disk, items: seq<Item>, p: Path)
    requires Sound(db) && LivePath(db.tree, rootId, root)
    requires DiskOk(disk) && Lists(items, disk) && IsFile(disk, p)
    requires Settled(db.tree, root, disk, p) || ListsFile(items, p)
    ensures Settled(Walk(db, rootId, items).tree, root, disk, p)
  {
    if items != [] {
      var init := items[..|items| - 1];
      var last := items[|items| - 1];
      WalkSound(db, rootId, root, init);
      var d := Walk(db, rootId, init);
      if Recordable(last) && last.path == p {
        var _ := ObserveFacts(d.tree, rootId, root, last);
      } else {
        if !Settled(db.tree, root, disk, p) {
          var i :| 0 <= i < |items| && Recordable(items[i]) && items[i].path == p;
          assert init[i] == items[i];
        }
        assert Lists(init, disk);
        WalkSettles(db, rootId, root, disk, init, p);
        if Recordable(last) {
          ObserveKeepsSettled(d.tree, rootId, root, disk, last, p);
        }
      }
    }
  }

  lemma EnteredKeepsSettled(db: Db, root: Path, disk: Disk, p: Path)
    requires Sound(db) && root != [] && IsFile(disk, p) && DiskOk(disk)
    requires Settled(db.tree, root, disk, p)
    ensures Settled(Entered(db, root).0.tree, root, disk, p)
  {
    var id: FileId :| RowIs(db.tree, id, root + p, Some(disk[p].len), disk[p].mtime);
    EnteredSound(db, root);
    LivePathIsPath(db.tree, id, root + p);
    PrefixBelow(root, p, []);
    assert root + [] == root && [] + root == root;
    EnsureDirsFrame(db.tree, None, [], root, id, root + p);
    var d := Entered(db, root).0;
    GrowsLivePath(db.tree, d.tree, id, root + p);
    assert RowIs(d.tree, id, root + p, Some(disk[p].len), disk[p].mtime);
  }

  /** From any sound store, a full scan leaves every file of the tree settled. */
  lemma FullScanSettles(db: Db, root: Path, disk: Disk, items: seq<Item>)
    requires Sound(db) && root != [] && DiskOk(disk)
    requires Lists(items, disk) && Covers(items, disk)
    ensures forall p :: IsFile(disk, p) ==> Settled(FullScan(db, root, items).tree, root, disk, p)
  {
    var (d, rootId) := Entered(db, root);
    EnteredSound(db, root);
    forall p | IsFile(disk, p) ensures Settled(Walk(d, rootId, items).tree, root, disk, p) {
      WalkSettles(d, rootId, root, disk, items, p);
    }
  }

  // ---------------------------------------------------------- quiet rescan

  /** An entry whose file is settled, and any directory, yields no event. */
  lemma ObserveQuiet(t: Tree, rootId: FileId, root: Path, disk: Disk, item: Item)
    requires Valid(t) && LivePath(t, rootId, root) && DiskOk(disk)
    requires Recordable(item) && Reports(item, disk)
    requires item.isDir || Settled(t, root, disk, item.path)
    ensures Observe(t, rootId, item).1 == None
  {
    if !item.isDir {
      var p := item.path;
      var dirs := p[..|p| - 1];
      var name := p[|p| - 1];
      assert p == dirs + [name];
      var size := SizeOf(false, item.len);
      var id: FileId :| RowIs(t, id, root + p, Some(disk[p].len), disk[p].mtime);
      assert root + dirs + [name] == root + p;
      EntryStays(t, rootId, root, dirs, name, id);
      var (t1, dir) := EnsureDirs(t, Some(rootId), dirs);
      QuietLeaf(t1, dir.value, root + dirs, name, id, size, item.mtime);
    }
  }

  /** Ensuring the directories above a live entry leaves it as it is. */
  lemma EntryStays(t: Tree, rootId: FileId, root: Path, dirs: Path, name: string, id: FileId)
    requires Valid(t) && LivePath(t, rootId, root) && LivePath(t, id, root + dirs + [name])
    ensures var (u, dir) := EnsureDirs(t, Some(rootId), dirs);
            && Valid(u) && dir.Some? && LivePath(u, dir.value, root + dirs)
            && LivePath(u, id, root + dirs + [name]) && u.files[id] == t.files[id]
  {
    var path := root + dirs + [name];
    var u := EnsureDirs(t, Some(rootId), dirs).0;
    EnsureDirsFacts(t, Some(rootId), root, dirs);
    LivePathIsPath(t, id, path);
    assert |path| > |root + dirs|;
    EnsureDirsFrame(t, Some(rootId), root, dirs, id, path);
    GrowsLivePath(t, u, id, path);
  }

  lemma QuietLeaf(t: Tree, dir: FileId, dirPath: Path, name: string, id: FileId, size: Option<int>, mtime: Option<int>)
    requires Valid(t) && LivePath(t, dir, dirPath) && RowIs(t, id, dirPath + [name], size, mtime)
    ensures RecordAt(t, dir, name, false, size, mtime).2 == None
  {
    RecordAtFacts(t, dir, dirPath, name, false, size, mtime);
    RecordAtKind(t, dir, dirPath, name, size, mtime);
    var (u, touched, _) := RecordAt(t, dir, name, false, size, mtime);
    GrowsLivePath(t, u, id, dirPath + [name]);
    LivePathUnique(u, id, touched, dirPath + [name]);
  }

  lemma {:induction false} WalkQuiet(db: Db, rootId: FileId, root: Path, disk: Disk, items: seq<Item>)
    requires Sound(db) && LivePath(db.tree, rootId, root) && DiskOk(disk) && Lists(items, disk)
    requires forall p :: IsFile(disk, p) ==> Settled(db.tree, root, disk, p)
    ensures Walk(db, rootId, items).events == db.events
  {
    if items != [] {
      var init := items[..|items| - 1];
      var last := items[|items| - 1];
      assert Lists(init, disk);
      WalkQuiet(db, rootId, root, disk, init);
      WalkSound(db, rootId, root, init);
      if Recordable(last) {
        if !last.isDir {
          assert IsFile(disk, last.path);
          WalkSettles(db, rootId, root, disk, init, last.path);
        }
        ObserveQuiet(Walk(db, rootId, init).tree, rootId, root, disk, last);
      }
    }
  }

  /** Where every file is settled, scanning the same tree again, in any order and however
      partially, adds no event. */
  lemma RescanQuiet(db: Db, root: Path, disk: Disk, items: seq<Item>)
    requires Sound(db) && root != [] && DiskOk(disk) && Lists(items, disk)
    requires forall p :: IsFile(disk, p) ==> Settled(db.tree, root, disk, p)
    ensures FullScan(db, root, items).events == db.events
  {
    var (d, rootId) := Entered(db, root);
    EnteredSound(db, root);
    forall p | IsFile(disk, p) ensures Settled(d.tree, root, disk, p) {
      EnteredKeepsSettled(db, root, disk, p);
    }
    WalkQuiet(d, rootId, root, disk, items);
  }

  /** A full scan of any sound store, then a second one of the same tree: no event. */
  lemma SecondScanQuiet(db: Db, root: Path, disk: Disk, items: seq<Item>, again: seq<Item>)
    requires Sound(db) && root != [] && DiskOk(disk)
    requires Lists(items, disk) && Covers(items, disk) && Lists(again, disk)
    ensures var once := FullScan(db, root, items);
            FullScan(once, root, again).events == once.events
  {
    FullScanSettles(db, root, disk, items);
    EnteredSound(db, root);
    WalkSound(Entered(db, root).0, Entered(db, root).1, root, items);
    RescanQuiet(FullScan(db, root, items), root, disk, again);
  }
}
