// The ordering the scan avoids: every upsert committed at once, the events only at the
// flush. A kill with events still waiting leaves files that no scan ever logs.
module EagerCommit {
  import opened Tables
  import opened PathTree
  import opened Paths
  import opened Recording
  import opened Scan
  import opened Convergence

  /** How many of the first `k` entries have their events flushed: all up to the last
      entry that filled a batch. */
  function Flushed(db: Db, rootId: FileId, items: seq<Item>, k: nat): (j: nat)
    requires k <= |items|
    ensures j <= k
  {
    if k == 0 then 0 else
    var j := Flushed(db, rootId, items, k - 1);
    if |Walk(db, rootId, items[..k]).events| - |Walk(db, rootId, items[..j]).events| >= BATCH_SIZE then k else j
  }

  /** What a kill after `k` entries leaves: all their rows, but only the flushed events. */
  function EagerStore(db: Db, rootId: FileId, items: seq<Item>, k: nat): Db
    requires k <= |items|
  {
    Db(Walk(db, rootId, items[..k]).tree, Walk(db, rootId, items[..Flushed(db, rootId, items, k)]).events)
  }

  /** A content the file can have when such a scan is killed, or once it is complete. */
  ghost predicate EagerPoint(db: Db, root: Path, items: seq<Item>, d: Db)
    requires root != []
  {
    || d == db || d == FullScan(db, root, items)
    || (d.events == db.events && EnsurePoint(db.tree, None, root, d.tree))
    || exists k :: 0 <= k <= |items| && d == EagerStore(Entered(db, root).0, Entered(db, root).1, items, k)
  }

  /** Row `id` is the file's, with its size and mtime, and has no history. */
  ghost predicate ForgottenRow(db: Db, root: Path, disk: Disk, p: Path, id: FileId)
    requires p in disk
  {
    RowIs(db.tree, id, root + p, Some(disk[p].len), disk[p].mtime) && EventsOf(db.events, id) == []
  }

  ghost predicate Forgotten(db: Db, root: Path, disk: Disk, p: Path)
    requires p in disk
  {
    exists id: FileId :: ForgottenRow(db, root, disk, p, id)
  }

  // ---------------------------------------------------- forgotten for good

  lemma StepForgets(db: Db, rootId: FileId, root: Path, disk: Disk, item: Item, p: Path, id: FileId)
    requires Sound(db) && LivePath(db.tree, rootId, root) && DiskOk(disk)
    requires Recordable(item) ==> Reports(item, disk)
    requires IsFile(disk, p) && ForgottenRow(db, root, disk, p, id)
    ensures ForgottenRow(Step(db, rootId, item), root, disk, p, id)
  {
    if Recordable(item) {
      var own := ObserveFacts(db.tree, rootId, root, item);
      var (u, event) := Observe(db.tree, rootId, item);
      GrowsLivePath(db.tree, u, id, root + p);
      if item.path == p {
        assert Settled(db.tree, root, disk, p);
        ObserveQuiet(db.tree, rootId, root, disk, item);
        LivePathUnique(u, own, id, root + p);
      } else {
        ObserveFrame(db.tree, rootId, root, disk, item, p, id);
        PrefixBelow(root, p, item.path);
        LivePathIsPath(u, own, root + item.path);
        LivePathIsPath(u, id, root + p);
        if own == id {
          PathUnique(u, id, root + p, root + item.path);
          assert false;
        }
        if event.Some? {
          AppendEventsOf(db.events, event.value, id);
        }
      }
    }
  }

  lemma {:induction false} WalkForgets(db: Db, rootId: FileId, root: Path, disk: Disk, items: seq<Item>, p: Path, id: FileId)
    requires Sound(db) && LivePath(db.tree, rootId, root) && DiskOk(disk) && Lists(items, disk)
    requires IsFile(disk, p) && ForgottenRow(db, root, disk, p, id)
    ensures ForgottenRow(Walk(db, rootId, items), root, disk, p, id)
  {
    if items != [] {
      var init := items[..|items| - 1];
      assert Lists(init, disk);
      WalkForgets(db, rootId, root, disk, init, p, id);
      WalkSound(db, rootId, root, init);
      StepForgets(Walk(db, rootId, init), rootId, root, disk, items[|items| - 1], p, id);
    }
  }

  /** Interrupted anywhere, ensuring a chain leaves the rows off it alone. */
  lemma {:induction false} EnsurePointFrame(t: Tree, start: Option<FileId>, dir: Path, path: Path, d: Tree, id: FileId, at: Path)
    requires Valid(t) && LiveStart(t, start, dir) && EnsurePoint(t, start, path, d)
    requires HasPath(t, id, at) && !(at <= dir + path)
    ensures id < |d.files| && d.files[id] == t.files[id]
    decreases |path|
  {
    var here, rest := dir + [path[0]], path[1..];
    assert here + rest == dir + path && here <= dir + path;
    EnsureDirFacts(t, start, dir, path[0]);
    EnsureDirFrame(t, start, dir, path[0], id, at);
    InternFacts(t, path[0]);
    var (t1, step) := EnsureDir(t, start, path[0]);
    if d != Intern(t, path[0]).0 && d != t1 {
      ExtendsPath(t, t1, id, at);
      EnsurePointFrame(t1, Some(step), here, rest, d, id, at);
    }
  }

  lemma EntryForgets(db: Db, root: Path, disk: Disk, d: Tree, p: Path, id: FileId)
    requires Sound(db) && root != [] && DiskOk(disk) && IsFile(disk, p) && ForgottenRow(db, root, disk, p, id)
    requires d == Entered(db, root).0.tree || EnsurePoint(db.tree, None, root, d)
    ensures ForgottenRow(Db(d, db.events), root, disk, p, id)
  {
    assert [] + root == root;
    assert |root + p| > |root|;
    LivePathIsPath(db.tree, id, root + p);
    if d == Entered(db, root).0.tree {
      EnteredSound(db, root);
      EnsureDirsFrame(db.tree, None, [], root, id, root + p);
    } else {
      EnsurePointFrame(db.tree, None, [], root, d, id, root + p);
      EnsurePointValid(db.tree, None, [], root, d);
    }
    GrowsLivePath(db.tree, d, id, root + p);
  }

  /** No scan, of either ordering, killed or complete, ever logs a forgotten file. */
  lemma ScanForgets(db: Db, root: Path, disk: Disk, items: seq<Item>, d: Db, p: Path, id: FileId)
    requires Sound(db) && root != [] && DiskOk(disk) && Lists(items, disk)
    requires IsFile(disk, p) && ForgottenRow(db, root, disk, p, id)
    requires ScanPoint(db, root, items, d) || EagerPoint(db, root, items, d)
    ensures Sound(d) && ForgottenRow(d, root, disk, p, id)
  {
    var (entered, rootId) := Entered(db, root);
    EnteredSound(db, root);
    EntryForgets(db, root, disk, entered.tree, p, id);
    if d == db {
    } else if d.events == db.events && EnsurePoint(db.tree, None, root, d.tree) {
      EnsurePointValid(db.tree, None, [], root, d.tree);
      EntryForgets(db, root, disk, d.tree, p, id);
    } else {
      var k :| 0 <= k <= |items| && (d == Walk(entered, rootId, items[..k]) || d == EagerStore(entered, rootId, items, k)) by {
        if d == FullScan(db, root, items) {
          assert items[..|items|] == items;
        }
      }
      PointForgets(entered, rootId, root, disk, items, k, p, id);
    }
  }

  lemma PointForgets(db: Db, rootId: FileId, root: Path, disk: Disk, items: seq<Item>, k: nat, p: Path, id: FileId)
    requires Sound(db) && LivePath(db.tree, rootId, root) && DiskOk(disk) && Lists(items, disk) && k <= |items|
    requires IsFile(disk, p) && ForgottenRow(db, root, disk, p, id)
    ensures Sound(Walk(db, rootId, items[..k])) && ForgottenRow(Walk(db, rootId, items[..k]), root, disk, p, id)
    ensures Sound(EagerStore(db, rootId, items, k)) && ForgottenRow(EagerStore(db, rootId, items, k), root, disk, p, id)
  {
    var j := Flushed(db, rootId, items, k);
    assert Lists(items[..k], disk) && Lists(items[..j], disk);
    WalkForgets(db, rootId, root, disk, items[..k], p, id);
    WalkForgets(db, rootId, root, disk, items[..j], p, id);
    WalkSound(db, rootId, root, items[..k]);
    EagerSound(db, rootId, root, items, k);
  }

  lemma {:induction false} WalkLonger(db: Db, rootId: FileId, items: seq<Item>, j: nat, k: nat)
    requires j <= k <= |items|
    ensures Walk(db, rootId, items[..j]).events <= Walk(db, rootId, items[..k]).events
    decreases k
  {
    if j < k {
      WalkLonger(db, rootId, items, j, k - 1);
      assert items[..k][..k - 1] == items[..k - 1];
    }
  }

  lemma EagerSound(db: Db, rootId: FileId, root: Path, items: seq<Item>, k: nat)
    requires Sound(db) && LivePath(db.tree, rootId, root) && k <= |items|
    ensures Sound(EagerStore(db, rootId, items, k))
  {
    WalkSound(db, rootId, root, items[..k]);
    WalkLonger(db, rootId, items, Flushed(db, rootId, items, k), k);
    var all, some := Walk(db, rootId, items[..k]).events, EagerStore(db, rootId, items, k).events;
    assert forall e :: e in some ==> e in all;
  }

  /** Scans one after the other, of either ordering, each killed anywhere or complete. */
  ghost predicate Scans(runs: seq<Db>, listings: seq<seq<Item>>, root: Path, disk: Disk)
    requires root != []
  {
    && |runs| == |listings| + 1
    && forall k :: 0 <= k < |listings| ==>
         Lists(listings[k], disk)
         && (ScanPoint(runs[k], root, listings[k], runs[k + 1]) || EagerPoint(runs[k], root, listings[k], runs[k + 1]))
  }

  /** Once forgotten, forgotten after any further scans of the tree. */
  lemma {:induction false} ForgottenForGood(runs: seq<Db>, listings: seq<seq<Item>>, root: Path, disk: Disk, p: Path, k: nat)
    requires root != [] && DiskOk(disk) && Scans(runs, listings, root, disk) && k < |runs|
    requires Sound(runs[0]) && IsFile(disk, p) && Forgotten(runs[0], root, disk, p)
    ensures Sound(runs[k]) && Forgotten(runs[k], root, disk, p)
  {
    if k > 0 {
      ForgottenForGood(runs, listings, root, disk, p, k - 1);
      var id: FileId :| ForgottenRow(runs[k - 1], root, disk, p, id);
      ScanForgets(runs[k - 1], root, disk, listings[k - 1], runs[k], p, id);
    }
  }

  // ------------------------------------------------------- when it happens

  lemma {:induction false} EventsOfPrefix(events: seq<Event>, n: nat, k: nat)
    requires n <= k < |events| && |EventsOf(events, events[k].fileId)| == 1
    ensures EventsOf(events[..n], events[k].fileId) == []
  {
    var id := events[k].fileId;
    if EventsOf(events[..n], id) != [] {
      EventsOfFrom(events[..n], id);
      var j :| 0 <= j < n && events[..n][j].fileId == id;
      EventsOfTwo(events, j, k);
      assert false;
    }
  }

  /** A first scan killed after `k` entries forgets a file exactly when events are waiting. */
  lemma EagerForgetsIff(root: Path, disk: Disk, items: seq<Item>, k: nat)
    requires root != [] && DiskOk(disk) && Lists(items, disk) && k <= |items|
    ensures var (entered, rootId) := Entered(EMPTY, root);
            var killed := EagerStore(entered, rootId, items, k);
            (exists p :: p in disk && IsFile(disk, p) && Forgotten(killed, root, disk, p))
            <==> killed.events != Walk(entered, rootId, items[..k]).events
  {
    var (entered, rootId) := Entered(EMPTY, root);
    var j := Flushed(entered, rootId, items, k);
    var killed, all := EagerStore(entered, rootId, items, k), Walk(entered, rootId, items[..k]);
    EmptyPartial(root, disk);
    assert CommitPoint(entered, rootId, items, all);
    KilledScanPartial(EMPTY, root, disk, items, all);
    WalkLonger(entered, rootId, items, j, k);
    if killed.events != all.events {
      var n := |killed.events|;
      LoggedFile(all, root, disk, n);
      EventsOfPrefix(all.events, n, n);
      assert killed.events == all.events[..n];
      var p :| p in disk && IsFile(disk, p)
               && RowIs(all.tree, all.events[n].fileId, root + p, Some(disk[p].len), disk[p].mtime);
      assert ForgottenRow(killed, root, disk, p, all.events[n].fileId);
    } else {
      forall p | p in disk && IsFile(disk, p) ensures !Forgotten(killed, root, disk, p) {
        forall id: FileId ensures !ForgottenRow(killed, root, disk, p, id) {
          if LivePath(all.tree, id, root + p) {
            LivePathIsPath(all.tree, id, root + p);
            assert (root + p)[|root|..] == p;
            assert Explained(all, root, disk, id, root + p);
          }
        }
      }
    }
  }

  /** An event of a partial store is the one event of a file of the tree. */
  lemma LoggedFile(db: Db, root: Path, disk: Disk, n: nat)
    requires Partial(db, root, disk) && n < |db.events|
    ensures |EventsOf(db.events, db.events[n].fileId)| == 1
    ensures exists p :: p in disk && IsFile(disk, p)
              && RowIs(db.tree, db.events[n].fileId, root + p, Some(disk[p].len), disk[p].mtime)
  {
    var id := db.events[n].fileId;
    InEventsOf(db.events, n);
    assert db.events[n] in db.events;
    assert Resolves(db.tree, id);
    var path :| HasPath(db.tree, id, path);
    assert Explained(db, root, disk, id, path);
    AllLivePath(db.tree, id, path);
    var p := path[|root|..];
    assert path == root + p;
    assert RowIs(db.tree, id, root + p, Some(disk[p].len), disk[p].mtime);
  }

  /** Entries up to the first that yields an event. */
  lemma {:induction false} FirstEvent(db: Db, rootId: FileId, items: seq<Item>, k: nat) returns (first: nat)
    requires k <= |items| && db.events == [] && Walk(db, rootId, items[..k]).events != []
    ensures first <= k && |Walk(db, rootId, items[..first]).events| == 1
    ensures Flushed(db, rootId, items, first) < first && Walk(db, rootId, items[..first - 1]).events == []
  {
    assert items[..k][..k - 1] == items[..k - 1];
    if Walk(db, rootId, items[..k - 1]).events == [] {
      first := k;
    } else {
      first := FirstEvent(db, rootId, items, k - 1);
    }
  }

  /** Some kill of the first scan forgets a file exactly when the tree has one. */
  lemma EagerCommitLosesHistory(root: Path, disk: Disk, items: seq<Item>)
    requires root != [] && DiskOk(disk) && Lists(items, disk) && Covers(items, disk)
    ensures (exists p :: IsFile(disk, p)) <==>
              exists k, p :: 0 <= k <= |items| && p in disk && IsFile(disk, p)
                && Forgotten(EagerStore(Entered(EMPTY, root).0, Entered(EMPTY, root).1, items, k), root, disk, p)
  {
    var (entered, rootId) := Entered(EMPTY, root);
    if p :| IsFile(disk, p) {
      assert KilledScans([EMPTY], [], root, disk);
      ConvergedCount([EMPTY], [], root, disk, items);
      assert p in Files(disk);
      assert items[..|items|] == items;
      var k := FirstEvent(entered, rootId, items, |items|);
      WalkLonger(entered, rootId, items, Flushed(entered, rootId, items, k), k - 1);
      EagerForgetsIff(root, disk, items, k);
    }
  }

  // ---------------------------------------------------------- a concrete run

  const HOME: Path := ["home"]
  const NOTES: Path := ["notes.txt"]

  function OneFile(): Disk {
    map[NOTES := Node(false, 5, Some(7))]
  }

  function OneEntry(): seq<Item> {
    [Entry(NOTES, false, 5, Some(7), 100)]
  }

  function KilledEarly(): Db {
    EagerStore(Entered(EMPTY, HOME).0, Entered(EMPTY, HOME).1, OneEntry(), 1)
  }

  lemma OneFileTree()
    ensures DiskOk(OneFile()) && Lists(OneEntry(), OneFile()) && Covers(OneEntry(), OneFile())
    ensures Files(OneFile()) == {NOTES}
  {
    assert ListsFile(OneEntry(), NOTES) by {
      assert Recordable(OneEntry()[0]);
    }
  }

  /** The one event of a tree of one file waits: the batch is not full. */
  lemma OneEventWaits(root: Path, disk: Disk, items: seq<Item>)
    requires root != [] && DiskOk(disk) && Lists(items, disk) && Covers(items, disk)
    requires |items| == 1 && |Files(disk)| == 1
    ensures var (entered, rootId) := Entered(EMPTY, root);
            EagerStore(entered, rootId, items, 1).events != Walk(entered, rootId, items[..1]).events
  {
    var (entered, rootId) := Entered(EMPTY, root);
    assert KilledScans([EMPTY], [], root, disk);
    ConvergedCount([EMPTY], [], root, disk, items);
    assert items[..1] == items;
    var first := FirstEvent(entered, rootId, items, 1);
    assert Flushed(entered, rootId, items, 1) == 0;
  }

  lemma OneFileWaits()
    ensures Sound(KilledEarly()) && Forgotten(KilledEarly(), HOME, OneFile(), NOTES)
  {
    OneFileTree();
    OneEventWaits(HOME, OneFile(), OneEntry());
    EnteredSound(EMPTY, HOME);
    EagerSound(Entered(EMPTY, HOME).0, Entered(EMPTY, HOME).1, HOME, OneEntry(), 1);
    EagerForgetsIff(HOME, OneFile(), OneEntry(), 1);
    var p :| p in OneFile() && IsFile(OneFile(), p) && Forgotten(KilledEarly(), HOME, OneFile(), p);
  }

  /** One file, killed before the flush: its row is there and no scan will ever log it. */
  lemma OneFileForgotten(runs: seq<Db>, listings: seq<seq<Item>>, k: nat)
    requires Scans(runs, listings, HOME, OneFile()) && k < |runs| && runs[0] == KilledEarly()
    ensures Forgotten(runs[k], HOME, OneFile(), NOTES)
  {
    OneFileTree();
    OneFileWaits();
    ForgottenForGood(runs, listings, HOME, OneFile(), NOTES, k);
  }
}
