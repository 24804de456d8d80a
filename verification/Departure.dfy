// What a removal does: the path is gone, and exactly its live row got exactly one deletion.
module Departure {
  import opened Tables
  import opened PathTree
  import opened Recording
  import opened Renaming

  /** A tombstone takes away live paths, its own row's among them, and adds none. */
  lemma {:induction false} TombstoneLivePath(t: Tree, id: FileId, at: int, j: FileId, path: Path)
    requires id < |t.files| && LivePath(Tombstone(t, id, at), j, path)
    ensures j != id && LivePath(t, j, path)
    decreases |path|
  {
    if t.files[j].parent.Some? {
      TombstoneLivePath(t, id, at, t.files[j].parent.value, path[..|path| - 1]);
    }
  }

  /** The removal's two look-ups, of the name and of the directory, find the live row of
      the path if there is one. */
  lemma RemovalFinds(db: Db, roots: seq<Path>, path: Path, id: FileId)
    requires Sound(db) && Inside(roots, path)
    requires LivePath(LookupParent(db.tree, OwningRoot(roots, path).value, path).0, id, path)
             || LivePath(db.tree, id, path)
    ensures var (u, parent, ok) := LookupParent(db.tree, OwningRoot(roots, path).value, path);
            && LookupName(db.tree.names, path[|path| - 1]).Some? ==>
                 LivePath(u, id, path) && ok && parent.Some?
                 && LiveEntry(u.files, parent, LookupName(db.tree.names, path[|path| - 1]).value) == Some(id)
    ensures LivePath(db.tree, id, path) ==> LookupName(db.tree.names, path[|path| - 1]).Some?
  {
    var root, name, dirs := OwningRoot(roots, path).value, path[|path| - 1], path[..|path| - 1];
    InsideParent(roots, path);
    LookupParentFacts(db.tree, root, path);
    var (u, parent, ok) := LookupParent(db.tree, root, path);
    if LivePath(db.tree, id, path) {
      GrowsLivePath(db.tree, u, id, path);
    }
    if LookupName(db.tree.names, name).Some? {
      var c := LookupName(db.tree.names, name).value;
      assert dirs + [name] == path && |path| > 1;
      var dir := u.files[id].parent.value;
      assert [] + dirs == dirs;
      FindDirsLive(u, None, [], dirs, dir);
      LiveEntryPath(u, dir, dirs, name, c);
    }
  }

  /** After a removal no live row has the path. The row that had it, if any, is tombstoned,
      with one deletion of it logged; and nothing is logged but the deletion of a live row
      of that path. */
  lemma RemovalEmpties(db: Db, roots: seq<Path>, path: Path, at: int)
    requires Sound(db) && Inside(roots, path)
    ensures var after := RecordRemoval(db, roots, path, at).0;
            && !LiveAt(after.tree, path)
            && (forall id: FileId :: LivePath(db.tree, id, path) ==>
                  id < |after.tree.files| && !after.tree.files[id].Live()
                  && after.events == db.events + [NewEvent(id, Deleted, at, None)])
            && (after.events == db.events
                || exists id: FileId :: HasPath(after.tree, id, path) && id < |db.tree.files| && db.tree.files[id].Live()
                     && after.events == db.events + [NewEvent(id, Deleted, at, None)])
  {
    var root, name := OwningRoot(roots, path).value, path[|path| - 1];
    InsideParent(roots, path);
    var after := RecordRemoval(db, roots, path, at).0;
    forall id: FileId | LivePath(db.tree, id, path)
      ensures id < |after.tree.files| && !after.tree.files[id].Live()
      ensures after.events == db.events + [NewEvent(id, Deleted, at, None)]
    {
      RemovalFinds(db, roots, path, id);
    }
    forall id: FileId ensures !LivePath(after.tree, id, path) {
      RemovalLeft(db, roots, path, at, id);
    }
    if after.events != db.events {
      RemovalLogged(db, roots, path, at);
    }
  }

  lemma RemovalLeft(db: Db, roots: seq<Path>, path: Path, at: int, id: FileId)
    requires Sound(db) && Inside(roots, path)
    ensures !LivePath(RecordRemoval(db, roots, path, at).0.tree, id, path)
  {
    if LivePath(RecordRemoval(db, roots, path, at).0.tree, id, path) {
      var (u, parent, ok) := LookupParent(db.tree, OwningRoot(roots, path).value, path);
      LookupParentFacts(db.tree, OwningRoot(roots, path).value, path);
      InsideParent(roots, path);
      var found := LookupName(db.tree.names, path[|path| - 1]);
      if found.Some? && parent.Some? && LiveEntry(u.files, parent, found.value).Some? {
        TombstoneLivePath(u, LiveEntry(u.files, parent, found.value).value, at, id, path);
      }
      RemovalFinds(db, roots, path, id);
      assert false;
    }
  }

  lemma RemovalLogged(db: Db, roots: seq<Path>, path: Path, at: int)
    requires Sound(db) && Inside(roots, path)
    requires RecordRemoval(db, roots, path, at).0.events != db.events
    ensures var after := RecordRemoval(db, roots, path, at).0;
            exists id: FileId :: HasPath(after.tree, id, path) && id < |db.tree.files| && db.tree.files[id].Live()
              && after.events == db.events + [NewEvent(id, Deleted, at, None)]
  {
    var root, name := OwningRoot(roots, path).value, path[|path| - 1];
    InsideParent(roots, path);
    LookupParentFacts(db.tree, root, path);
    var (u, parent, ok) := LookupParent(db.tree, root, path);
    var c := LookupName(db.tree.names, name).value;
    var id := LiveEntry(u.files, parent, c).value;
    assert u.names[c] == name && HasPath(u, id, path);
    ChainFrame(db.tree, root, path, id);
    TombstoneFacts(u, id, at);
    ExtendsPath(u, Tombstone(u, id, at), id, path);
    assert RecordRemoval(db, roots, path, at).0 == Delete(Db(u, db.events), id, at);
  }

  /** A row of a path that is not on an ensured chain is an old one, left as it was. */
  lemma ChainFrame(t: Tree, chain: Path, path: Path, id: FileId)
    requires Valid(t) && !(path <= chain) && HasPath(EnsureDirs(t, None, chain).0, id, path)
    ensures id < |t.files| && EnsureDirs(t, None, chain).0.files[id] == t.files[id]
  {
    var u := EnsureDirs(t, None, chain).0;
    assert [] + chain == chain;
    EnsureDirsFacts(t, None, [], chain);
    if id >= |t.files| {
      NewRowOnChain(t, None, [], chain, id, path);
      assert false;
    }
    PathBack(t, u, id, path);
    EnsureDirsFrame(t, None, [], chain, id, path);
  }

  // ------------------------------------------------------------ the subtree

  /** After a removal nothing at or below the path is live. */
  lemma RemovalClearsSubtree(db: Db, roots: seq<Path>, path: Path, at: int, id: FileId, below: Path)
    requires Sound(db) && Inside(roots, path) && path <= below
    ensures !LivePath(RecordRemoval(db, roots, path, at).0.tree, id, below)
  {
    var after := RecordRemoval(db, roots, path, at).0.tree;
    if LivePath(after, id, below) {
      InsideParent(roots, path);
      assert below == path + below[|path|..];
      var up := LiveAncestor(after, id, path, below[|path|..]);
      RemovalLeft(db, roots, path, at, up);
      assert false;
    }
  }

  /** The latest row of its location, once tombstoned: all others are tombstones stamped
      before. */
  predicate LatestThere(t: Tree, id: FileId, at: int)
    requires id < |t.files|
  {
    forall j :: 0 <= j < |t.files| && j != id && t.files[j].At(t.files[id].parent, t.files[id].component) ==>
      t.files[j].deletedAt.Some? && t.files[j].deletedAt.value < at
  }

  /** A removal tombstones one row only: if the directory is seen again, that row is revived
      and with it every entry below that was live, though none of them is there any more. */
  lemma RemovedReturns(db: Db, roots: seq<Path>, path: Path, at: int, id: FileId)
    requires Sound(db) && Inside(roots, path) && LivePath(db.tree, id, path)
    requires LatestThere(db.tree, id, at)
    ensures var after := RecordRemoval(db, roots, path, at).0.tree;
            var (again, found) := EnsureDirs(after, None, path);
            && found == Some(id)
            && forall child: FileId, suffix :: LivePath(db.tree, child, path + suffix) ==> LivePath(again, child, path + suffix)
  {
    var root, name, dirs := OwningRoot(roots, path).value, path[|path| - 1], path[..|path| - 1];
    InsideParent(roots, path);
    RemovalFinds(db, roots, path, id);
    LookupParentFacts(db.tree, root, path);
    var (u, parent, ok) := LookupParent(db.tree, root, path);
    LatestStays(db.tree, u, root, path, id, at);
    assert RecordRemoval(db, roots, path, at).0.tree == Tombstone(u, id, at);
    TombstoneReturns(u, id, path, at);
    forall child: FileId, suffix | LivePath(db.tree, child, path + suffix)
      ensures LivePath(EnsureDirs(Tombstone(u, id, at), None, path).0, child, path + suffix)
    {
      GrowsLivePath(db.tree, u, child, path + suffix);
    }
  }

  /** Ensuring the root's chain touches no row of a location below it. */
  lemma LatestStays(t: Tree, u: Tree, root: Path, path: Path, id: FileId, at: int)
    requires Valid(t) && root != [] && root < path && u == EnsureDirs(t, None, root).0
    requires LivePath(t, id, path) && LatestThere(t, id, at)
    ensures id < |u.files| && LatestThere(u, id, at)
  {
    EnsureDirsFacts(t, None, [], root);
    assert [] + root == root;
    GrowsLivePath(t, u, id, path);
    assert SamePlace(t.files[id], u.files[id]);
    LivePathIsPath(u, id, path);
    forall j | 0 <= j < |u.files| && j != id && u.files[j].At(u.files[id].parent, u.files[id].component)
      ensures u.files[j].deletedAt.Some? && u.files[j].deletedAt.value < at
    {
      assert HasPath(u, j, path);
      ChainFrame(t, root, path, j);
    }
  }

  lemma TombstoneReturns(t: Tree, id: FileId, path: Path, at: int)
    requires Valid(t) && |path| > 1 && LivePath(t, id, path) && LatestThere(t, id, at)
    ensures var (again, found) := EnsureDirs(Tombstone(t, id, at), None, path);
            && found == Some(id)
            && forall child: FileId, suffix :: LivePath(t, child, path + suffix) ==> LivePath(again, child, path + suffix)
  {
    var dirs, name := path[..|path| - 1], path[|path| - 1];
    assert path == dirs + [name];
    DirectoryReturns(t, id, dirs, name, at);
    var again := EnsureDirs(Tombstone(t, id, at), None, path).0;
    forall child: FileId, suffix | LivePath(t, child, path + suffix) ensures LivePath(again, child, path + suffix) {
      BelowReturns(t, again, id, path, child, suffix);
    }
  }

  lemma DirectoryReturns(t: Tree, id: FileId, dirs: Path, name: string, at: int)
    requires Valid(t) && dirs != [] && LivePath(t, id, dirs + [name]) && LatestThere(t, id, at)
    ensures var (again, found) := EnsureDirs(Tombstone(t, id, at), None, dirs + [name]);
            && found == Some(id) && LivePath(again, id, dirs + [name]) && OnlyRevived(t, again, id)
  {
    var dead, path := Tombstone(t, id, at), dirs + [name];
    var dir := t.files[id].parent.value;
    assert path[..|path| - 1] == dirs && [] + dirs == dirs;
    TombstoneFacts(t, id, at);
    LivePathIsPath(t, id, path);
    TombstoneElsewhere(t, id, at, path, dir, dirs);
    EnsureDirsFinds(dead, None, [], dirs, dir);
    EnsureDirsFacts(dead, None, [], dirs);
    EnsureOneMore(dead, None, dirs, name);
    var v := EnsureDirs(dead, None, dirs).0;
    Revived(t, v, id, dir, name, at);
    EnsureDirFacts(v, Some(dir), dirs, name);
  }

  /** The same rows in the same places, dead or alive as before but for `id`. */
  ghost predicate OnlyRevived(t: Tree, again: Tree, id: FileId) {
    && again.names == t.names && |again.files| == |t.files|
    && forall i :: 0 <= i < |t.files| ==>
         SamePlace(t.files[i], again.files[i]) && (i != id ==> again.files[i].deletedAt == t.files[i].deletedAt)
  }

  /** A path that does not go through the tombstoned row stays live. */
  lemma {:induction false} TombstoneElsewhere(t: Tree, id: FileId, at: int, path: Path, j: FileId, other: Path)
    requires HasPath(t, id, path) && LivePath(t, j, other) && !(path <= other)
    ensures LivePath(Tombstone(t, id, at), j, other)
    decreases |other|
  {
    LivePathIsPath(t, j, other);
    if j == id {
      PathUnique(t, id, path, other);
      assert false;
    }
    if t.files[j].parent.Some? {
      TombstoneElsewhere(t, id, at, path, t.files[j].parent.value, other[..|other| - 1]);
    }
  }

  /** The upsert at the location takes the latest tombstone, and touches nothing else. */
  lemma Revived(t: Tree, v: Tree, id: FileId, dir: FileId, name: string, at: int)
    requires Valid(t) && id < |t.files| && t.files[id].parent == Some(dir) && LatestThere(t, id, at)
    requires t.files[id].component < |t.names| && t.names[t.files[id].component] == name
    requires Valid(v) && Alike(Tombstone(t, id, at), v)
    ensures var (again, found) := EnsureDir(v, Some(dir), name);
            found == id && OnlyRevived(t, again, id)
  {
    var c := t.files[id].component;
    LookupNameAt(v.names, c);
    assert SamePlace(t.files[id], v.files[id]) && v.files[id].deletedAt == Some(at);
    forall j | 0 <= j < |v.files| && j != id && v.files[j].At(Some(dir), c)
      ensures v.files[j].deletedAt.Some? && v.files[j].deletedAt.value < at
    {
      assert SamePlace(t.files[j], v.files[j]);
    }
    assert Pick(v.files, Some(dir), c) == Some(id);
  }

  lemma {:induction false} BelowReturns(t: Tree, again: Tree, id: FileId, path: Path, child: FileId, suffix: Path)
    requires Valid(t) && LivePath(t, id, path) && LivePath(t, child, path + suffix)
    requires LivePath(again, id, path) && OnlyRevived(t, again, id)
    ensures LivePath(again, child, path + suffix)
    decreases |suffix|
  {
    if suffix == [] {
      assert path + suffix == path;
      LivePathUnique(t, id, child, path);
    } else {
      var init, whole := suffix[..|suffix| - 1], path + suffix;
      assert whole[..|whole| - 1] == path + init && |path + init| > 0;
      BelowReturns(t, again, id, path, t.files[child].parent.value, init);
      assert SamePlace(t.files[child], again.files[child]);
    }
  }
}
