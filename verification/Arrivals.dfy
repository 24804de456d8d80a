// What an observation leaves behind, in full: the row, its contents, the event and the file
// handed to extraction, for touches, and for renames that turn out to be arrivals or
// departures.
module Arrivals {
  import opened Tables
  import opened PathTree
  import opened Recording
  import opened Renaming
  import opened Departure

  /** Row `id` is live under its own steam, in a directory that may not be. */
  predicate WasLive(t: Tree, id: FileId) {
    id < |t.files| && t.files[id].Live()
  }

  /** From `t` with `events`: the entry's row `id` is live at the path and up to date; a file
      that was not so before has one event, a creation if its row was not live and a
      modification if it was, and is handed to extraction; nothing else is logged. In a live
      directory the row was live exactly if something was live at the path. */
  ghost predicate ArrivedAs(t: Tree, events: seq<Event>, after: Db, outcome: Outcome, path: Path, stat: Stat, at: int, id: FileId)
    requires stat.Found?
  {
    && LivePath(after.tree, id, path)
    && after.tree.files[id].mtime == stat.mtime
    && after.tree.files[id].size == (if stat.isDir then None else Some(stat.len))
    && (id >= |t.files| ==> after.tree.files[id].isDir == stat.isDir)
    && (LiveAt(t, path) <==> WasLive(t, id) && LiveAt(t, path[..|path| - 1]))
    && if stat.isDir || (WasLive(t, id) && t.files[id].size == Some(stat.len) && t.files[id].mtime == stat.mtime) then
         outcome == Recorded(None) && after.events == events
       else
         && outcome == Recorded(Some(id))
         && after.events == events + [Event(id, if WasLive(t, id) then Modified else Created, at, Some(stat.len), None, None)]
  }

  /** A path found on disk, strictly inside its root, arrives. */
  lemma TouchArrives(db: Db, roots: seq<Path>, path: Path, stat: Stat, at: int) returns (id: FileId)
    requires Sound(db) && Inside(roots, path) && stat.Found?
    ensures var (after, outcome) := RecordPath(db, roots, path, stat, at);
            Sound(after) && ArrivedAs(db.tree, db.events, after, outcome, path, stat, at, id)
  {
    var root, name, parent := OwningRoot(roots, path).value, path[|path| - 1], path[..|path| - 1];
    InsideParent(roots, path);
    EnterParentFacts(db.tree, root, path);
    var (t, dir) := EnterParent(db.tree, root, path);
    assert path == parent + [name];
    RecordPathUnfolds(db, roots, path, stat, at);
    RecordPathFacts(db, roots, path, stat, at);
    id := EntryArrives(Db(t, db.events), dir.value, parent, name, stat, at);
    var u := RecordPath(db, roots, path, stat, at).0.tree;
    LivePathIsPath(u, id, path);
    SameBefore(db.tree, t, u, parent, path, id);
    LiveIffRow(db.tree, u, path, id);
  }

  lemma EntryArrives(db: Db, dir: FileId, parent: Path, name: string, stat: Stat, at: int) returns (id: FileId)
    requires Sound(db) && LivePath(db.tree, dir, parent) && stat.Found?
    ensures var size := SizeOf(stat.isDir, stat.len);
            var (u, row, kind) := RecordAt(db.tree, dir, name, stat.isDir, size, stat.mtime);
            && id == row && Grows(db.tree, u)
            && ArrivedAs(db.tree, db.events, Logged(db, u, row, kind, at, size),
                         Recorded(if kind.Some? then Some(row) else None), parent + [name], stat, at, id)
  {
    var size := SizeOf(stat.isDir, stat.len);
    RecordAtFacts(db.tree, dir, parent, name, stat.isDir, size, stat.mtime);
    var (u, row, kind) := RecordAt(db.tree, dir, name, stat.isDir, size, stat.mtime);
    id := row;
    var path := parent + [name];
    assert path[..|path| - 1] == parent;
    LiveIffRow(db.tree, u, path, row);
    if !stat.isDir {
      RecordAtKind(db.tree, dir, parent, name, size, stat.mtime);
    }
  }

  /** A path is live exactly if its row and its directory are. */
  lemma LiveIffRow(t: Tree, u: Tree, path: Path, id: FileId)
    requires Valid(t) && Valid(u) && Grows(t, u) && LivePath(u, id, path) && |path| > 1
    ensures LivePath(t, id, path) <==> WasLive(t, id) && LiveAt(t, path[..|path| - 1])
    ensures LiveAt(t, path) <==> LivePath(t, id, path)
  {
    if LiveAt(t, path) {
      var prior: FileId :| LivePath(t, prior, path);
      GrowsLivePath(t, u, prior, path);
      LivePathUnique(u, prior, id, path);
    }
    if WasLive(t, id) && LiveAt(t, path[..|path| - 1]) {
      var dir: FileId :| LivePath(t, dir, path[..|path| - 1]);
      assert SamePlace(t.files[id], u.files[id]);
      RootedResolves(t, id);
      GrowsLivePath(t, u, dir, path[..|path| - 1]);
      LivePathUnique(u, u.files[id].parent.value, dir, path[..|path| - 1]);
    }
  }

  /** The directories on the way do not touch the entry's own row. */
  lemma SameBefore(t: Tree, u: Tree, v: Tree, parent: Path, path: Path, id: FileId)
    requires Valid(t) && u == EnsureDirs(t, None, parent).0 && !(path <= parent)
    requires Rooted(u) && Extends(u, v) && HasPath(v, id, path)
    ensures id < |t.files| ==> id < |u.files| && u.files[id] == t.files[id]
    ensures id >= |t.files| ==> id >= |u.files|
  {
    EnsureDirsLonger(t, parent);
    if id < |u.files| {
      PathBack(u, v, id, path);
      ChainFrame(t, parent, path, id);
    }
  }

  lemma EnsureDirsLonger(t: Tree, path: Path)
    requires Valid(t)
    ensures |t.files| <= |EnsureDirs(t, None, path).0.files|
  {
    EnsureDirsFacts(t, None, [], path);
  }

  /** A path that is gone by the time it is looked at departs, exactly as if its removal had
      been reported; one that cannot be looked at is left alone. */
  lemma VanishedDeparts(db: Db, roots: seq<Path>, path: Path, at: int)
    requires Sound(db) && Inside(roots, path)
    ensures RecordPath(db, roots, path, Denied, at) == (db, Recorded(None))
    ensures var (after, outcome) := RecordPath(db, roots, path, Missing, at);
            outcome == Recorded(None) && DepartedAs(db, after, path, at)
  {
    RemovalDeparts(db, roots, path, at);
    VanishedIsRemoved(db, roots, path, at);
  }

  lemma VanishedIsRemoved(db: Db, roots: seq<Path>, path: Path, at: int)
    requires OwningRoot(roots, path).Some?
    ensures RecordPath(db, roots, path, Denied, at) == (db, Recorded(None))
    ensures RecordPath(db, roots, path, Missing, at) == RecordRemoval(db, roots, path, at)
  {
  }

  /** No live row has the path; the row that had it, if any, is stamped and otherwise as it
      was, with one deletion of it logged; without one, at most the deletion of a live row of
      the path, in a directory that was not, is logged. */
  ghost predicate DepartedAs(db: Db, after: Db, path: Path, at: int) {
    && !LiveAt(after.tree, path)
    && (forall id: FileId :: LivePath(db.tree, id, path) ==>
          && id < |after.tree.files| && after.tree.files[id] == db.tree.files[id].(deletedAt := Some(at))
          && after.events == db.events + [Event(id, Deleted, at, None, None, None)])
    && (after.events == db.events
        || exists id: FileId :: HasPath(after.tree, id, path) && WasLive(db.tree, id)
             && after.events == db.events + [Event(id, Deleted, at, None, None, None)])
  }

  lemma RemovalDeparts(db: Db, roots: seq<Path>, path: Path, at: int)
    requires Sound(db) && Inside(roots, path)
    ensures var (after, outcome) := RecordRemoval(db, roots, path, at);
            outcome == Recorded(None) && DepartedAs(db, after, path, at)
  {
    RemovalSucceeds(db, roots, path, at);
    RemovalEmpties(db, roots, path, at);
    forall id: FileId | LivePath(db.tree, id, path)
      ensures RecordRemoval(db, roots, path, at).0.tree.files[id] == db.tree.files[id].(deletedAt := Some(at))
    {
      RemovedRow(db, roots, path, at, id);
    }
    var after := RecordRemoval(db, roots, path, at).0;
    if after.events != db.events {
      var id: FileId :| HasPath(after.tree, id, path) && id < |db.tree.files| && db.tree.files[id].Live()
                        && after.events == db.events + [NewEvent(id, Deleted, at, None)];
      assert WasLive(db.tree, id);
    }
  }

  lemma RemovalSucceeds(db: Db, roots: seq<Path>, path: Path, at: int)
    requires Sound(db) && Inside(roots, path)
    ensures RecordRemoval(db, roots, path, at).1 == Recorded(None)
  {
    InsideParent(roots, path);
    LookupParentFacts(db.tree, OwningRoot(roots, path).value, path);
  }

  lemma RemovedRow(db: Db, roots: seq<Path>, path: Path, at: int, id: FileId)
    requires Sound(db) && Inside(roots, path) && LivePath(db.tree, id, path)
    ensures var after := RecordRemoval(db, roots, path, at).0.tree;
            id < |after.files| && after.files[id] == db.tree.files[id].(deletedAt := Some(at))
  {
    var root := OwningRoot(roots, path).value;
    InsideParent(roots, path);
    RemovalFinds(db, roots, path, id);
    LivePathIsPath(LookupParent(db.tree, root, path).0, id, path);
    ChainFrame(db.tree, root, path, id);
  }

  // ------------------------------------------- renames that are not moves

  /** The destination is a directory on the way to the source's root. */
  predicate AboveSource(roots: seq<Path>, from: Path, to: Path) {
    OwningRoot(roots, from).Some? && to <= OwningRoot(roots, from).value
  }

  /** Renamed from somewhere unknown: an arrival at the destination. What counts as before is
      the store with the source root's chain ensured, which is the store itself for every
      row but those of that chain. */
  lemma UnknownSourceArrives(db: Db, roots: seq<Path>, from: Path, to: Path, stat: Stat, at: int) returns (id: FileId)
    requires Sound(db) && Movable(roots, from, to) && Inside(roots, to) && stat.Found?
    requires LookupFile(db.tree, roots, from).1.Unknown?
    ensures var (after, outcome) := RecordRename(db, roots, from, to, stat, at);
            && Sound(after)
            && ArrivedAs(LookupFile(db.tree, roots, from).0, db.events, after, outcome, to, stat, at, id)
            && (!AboveSource(roots, from, to) ==> ArrivedAs(db.tree, db.events, after, outcome, to, stat, at, id))
  {
    var t := LookupFile(db.tree, roots, from).0;
    LookupFileFacts(db.tree, roots, from);
    id := TouchArrives(Db(t, db.events), roots, to, stat, at);
    if !AboveSource(roots, from, to) {
      var after := RecordRename(db, roots, from, to, stat, at).0;
      InsideParent(roots, to);
      RecordPathFacts(Db(t, db.events), roots, to, stat, at);
      LivePathIsPath(after.tree, id, to);
      SameForLookup(db.tree, t, roots, from, to, id, after.tree);
      ArrivedSince(db.tree, t, db.events, after, RecordRename(db, roots, from, to, stat, at).1, to, stat, at, id);
    }
  }

  /** An arrival from `u` is one from any earlier tree with the same row. */
  lemma ArrivedSince(t: Tree, u: Tree, events: seq<Event>, after: Db, outcome: Outcome, path: Path, stat: Stat, at: int, id: FileId)
    requires Valid(t) && Valid(after.tree) && Grows(t, u) && Grows(u, after.tree) && stat.Found? && |path| > 1
    requires ArrivedAs(u, events, after, outcome, path, stat, at, id)
    requires id < |t.files| ==> u.files[id] == t.files[id]
    requires id >= |t.files| ==> id >= |u.files|
    ensures ArrivedAs(t, events, after, outcome, path, stat, at, id)
  {
    GrowsTransitive(t, u, after.tree);
    LiveIffRow(t, after.tree, path, id);
  }

  /** A lookup changes no row that is not on its root's chain. */
  lemma SameForLookup(t: Tree, u: Tree, roots: seq<Path>, from: Path, to: Path, id: FileId, v: Tree)
    requires Valid(t) && u == LookupFile(t, roots, from).0 && Valid(u) && Grows(t, u)
    requires OwningRoot(roots, from).None? || Inside(roots, from)
    requires !AboveSource(roots, from, to)
    requires Valid(v) && Extends(u, v) && HasPath(v, id, to)
    ensures id < |t.files| ==> u.files[id] == t.files[id]
    ensures id >= |t.files| ==> id >= |u.files|
  {
    if u != t {
      SameBefore(t, u, v, OwningRoot(roots, from).value, to, id);
    }
  }

  /** ... and if the destination is gone again, it departs there. */
  lemma UnknownSourceVanished(db: Db, roots: seq<Path>, from: Path, to: Path, at: int)
    requires Sound(db) && Movable(roots, from, to) && Inside(roots, to)
    requires LookupFile(db.tree, roots, from).1.Unknown?
    ensures var t := LookupFile(db.tree, roots, from).0;
            var (after, outcome) := RecordRename(db, roots, from, to, Missing, at);
            outcome == Recorded(None) && DepartedAs(Db(t, db.events), after, to, at)
  {
    LookupFileFacts(db.tree, roots, from);
    VanishedDeparts(Db(LookupFile(db.tree, roots, from).0, db.events), roots, to, at);
  }

  /** Renamed out of every root: a departure from the source, whatever is found outside. */
  lemma OutsideDestinationDeparts(db: Db, roots: seq<Path>, from: Path, to: Path, stat: Stat, at: int)
    requires Sound(db) && Inside(roots, from) && OwningRoot(roots, to).None?
    ensures var (after, outcome) := RecordRename(db, roots, from, to, stat, at);
            outcome == Recorded(None) && DepartedAs(db, after, from, at)
  {
    RemovalDeparts(db, roots, from, at);
  }

  /** Renamed from outside every root to outside every root: nothing. */
  lemma OutsideBothIgnored(db: Db, roots: seq<Path>, from: Path, to: Path, stat: Stat, at: int)
    requires OwningRoot(roots, from).None? && OwningRoot(roots, to).None?
    ensures RecordRename(db, roots, from, to, stat, at) == (db, Recorded(None))
  {
  }
}
