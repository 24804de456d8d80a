// A rename in terms of what is live where: everything live at and below the source is live
// at and below the destination, the source is vacated, what the destination held is gone,
// and the rest stays.
module Relocation {
  import opened Tables
  import opened PathTree
  import opened Recording
  import opened Renaming
  import opened Departure

  /** A live path inside its root is a known source, and the row looked up is its row. */
  lemma LiveSourceKnown(t: Tree, roots: seq<Path>, path: Path, id: FileId)
    requires Valid(t) && Inside(roots, path) && LivePath(t, id, path)
    ensures var (u, found) := LookupFile(t, roots, path);
            Valid(u) && Grows(t, u) && found.Known? && found.id == id
  {
    var root, dirs, name := OwningRoot(roots, path).value, path[..|path| - 1], path[|path| - 1];
    InsideParent(roots, path);
    LookupNameAt(t.names, t.files[id].component);
    LookupParentFacts(t, root, path);
    var (u, parent, ok) := LookupParent(t, root, path);
    GrowsLivePath(t, u, id, path);
    var dir := u.files[id].parent.value;
    assert [] + dirs == dirs;
    FindDirsLive(u, None, [], dirs, dir);
    PickLive(u.files, Some(dir), u.files[id].component, id);
  }

  /** Row `id` is an entry of directory `dir` called as the path's last component. */
  predicate SitsIn(t: Tree, id: FileId, dir: FileId, path: Path)
    requires path != []
  {
    && id < |t.files| && t.files[id].parent == Some(dir)
    && t.files[id].component < |t.names| && t.names[t.files[id].component] == path[|path| - 1]
  }

  /** The live row sitting there, or else the one that died last. */
  ghost predicate FirstThere(t: Tree, id: FileId, dir: FileId, path: Path)
    requires path != []
  {
    SitsIn(t, id, dir, path) && forall other: FileId :: SitsIn(t, other, dir, path) ==> !Ahead(t.files[other], t.files[id])
  }

  /** In a live directory a path is a known source exactly if some row, dead or alive, sits
      there, and the first of them is found. */
  lemma SourceKnownIff(t: Tree, roots: seq<Path>, path: Path, dir: FileId)
    requires Valid(t) && Inside(roots, path) && LivePath(t, dir, path[..|path| - 1])
    ensures var (u, found) := LookupFile(t, roots, path);
            && (found.Known? <==> exists id: FileId :: SitsIn(t, id, dir, path))
            && (found.Known? ==> FirstThere(u, found.id, dir, path))
  {
    var root, c := OwningRoot(roots, path).value, LookupName(t.names, path[|path| - 1]);
    InsideParent(roots, path);
    SameSitters(t, root, path, dir);
    if c.Some? {
      DirectoryFound(t, root, path, dir);
      var u := LookupParent(t, root, path).0;
      LookedUp(u, dir, path, c.value);
    }
  }

  lemma DirectoryFound(t: Tree, root: Path, path: Path, dir: FileId)
    requires Valid(t) && root != [] && root < path && LivePath(t, dir, path[..|path| - 1])
    ensures var (u, parent, ok) := LookupParent(t, root, path);
            ok && parent == Some(dir) && Valid(u) && Grows(t, u) && u == EnsureDirs(t, None, root).0
  {
    var parent := path[..|path| - 1];
    ParentDirsInside(root, path);
    LookupParentFacts(t, root, path);
    var u := LookupParent(t, root, path).0;
    GrowsLivePath(t, u, dir, parent);
    assert [] + parent == parent;
    FindDirsLive(u, None, [], parent, dir);
  }

  lemma LookedUp(t: Tree, dir: FileId, path: Path, c: ComponentId)
    requires Valid(t) && path != [] && c < |t.names| && t.names[c] == path[|path| - 1]
    ensures var found := Pick(t.files, Some(dir), c);
            && (found.Some? <==> exists id: FileId :: SitsIn(t, id, dir, path))
            && (found.Some? ==> FirstThere(t, found.value, dir, path))
  {
    AtLocation(t, dir, path, c);
    var found := Pick(t.files, Some(dir), c);
    if found.Some? {
      assert SitsIn(t, found.value, dir, path);
    }
  }

  lemma AtLocation(t: Tree, dir: FileId, path: Path, c: ComponentId)
    requires Valid(t) && path != [] && c < |t.names| && t.names[c] == path[|path| - 1]
    ensures forall id: FileId :: SitsIn(t, id, dir, path) <==> id < |t.files| && t.files[id].At(Some(dir), c)
  {
    LookupNameAt(t.names, c);
    forall id: FileId | SitsIn(t, id, dir, path) ensures t.files[id].component == c {
      LookupNameAt(t.names, t.files[id].component);
    }
  }

  /** Ensuring a root's chain adds no row below the root. */
  lemma SameSitters(t: Tree, root: Path, path: Path, dir: FileId)
    requires Valid(t) && root != [] && root < path && LivePath(t, dir, path[..|path| - 1])
    ensures var u := EnsureDirs(t, None, root).0;
            forall id: FileId :: SitsIn(u, id, dir, path) <==> SitsIn(t, id, dir, path)
  {
    var u := EnsureDirs(t, None, root).0;
    EnsureDirsFacts(t, None, [], root);
    LivePathIsPath(t, dir, path[..|path| - 1]);
    ExtendsPath(t, u, dir, path[..|path| - 1]);
    forall id: FileId ensures SitsIn(u, id, dir, path) <==> SitsIn(t, id, dir, path) {
      if SitsIn(u, id, dir, path) {
        assert HasPath(u, id, path);
        ChainFrame(t, root, path, id);
        RootedResolves(t, id);
      }
      if SitsIn(t, id, dir, path) {
        assert SamePlace(t.files[id], u.files[id]);
      }
    }
  }

  /** In the moved tree a live path that does not go through the destination was live
      before, and is not the moved row's. */
  lemma {:induction false} LiveBefore(t: Tree, u: Tree, m: FileId, to: Path, dir: FileId, c: ComponentId, there: Lookup,
                                      at: int, id: FileId, path: Path)
    requires MoveReady(t, u, m, to, dir, c, there)
    requires LivePath(Moved(u, m, dir, c, there, at), id, path) && !(to <= path)
    ensures LivePath(u, id, path) && id != m
    decreases |path|
  {
    var v := Moved(u, m, dir, c, there, at);
    if id == m {
      Landed(t, u, m, to, dir, c, there, at);
      LivePathIsPath(v, m, path);
      PathUnique(v, m, path, to);
      assert false;
    }
    assert v.files[id] == u.files[id];
    if u.files[id].parent.Some? {
      LiveBefore(t, u, m, to, dir, c, there, at, u.files[id].parent.value, path[..|path| - 1]);
    }
  }

  lemma Landed(t: Tree, u: Tree, m: FileId, to: Path, dir: FileId, c: ComponentId, there: Lookup, at: int)
    requires MoveReady(t, u, m, to, dir, c, there)
    ensures HasPath(Moved(u, m, dir, c, there, at), m, to)
  {
    var parent := to[..|to| - 1];
    LivePathIsPath(u, dir, parent);
    MovedElsewhere(t, u, m, to, dir, c, there, at, dir, parent);
  }

  /** The row at the destination, if it is not the moved one, has the destination's path. */
  lemma ThereAt(t: Tree, u: Tree, m: FileId, to: Path, dir: FileId, c: ComponentId, there: Lookup, id: FileId, path: Path)
    requires MoveReady(t, u, m, to, dir, c, there) && there.Known? && HasPath(u, id, path)
    ensures id == there.id ==> path == to
  {
    LivePathIsPath(u, dir, to[..|to| - 1]);
    assert HasPath(u, there.id, to);
    if id == there.id {
      PathUnique(u, id, path, to);
    }
  }

  /** A live path through neither the moved row nor the destination stays. */
  lemma {:induction false} LiveStays(t: Tree, u: Tree, m: FileId, to: Path, dir: FileId, c: ComponentId, there: Lookup,
                                     at: int, id: FileId, path: Path)
    requires MoveReady(t, u, m, to, dir, c, there)
    requires LivePath(u, id, path) && !IsBelow(u, id, m) && !(to <= path)
    ensures LivePath(Moved(u, m, dir, c, there, at), id, path)
    decreases |path|
  {
    LivePathIsPath(u, id, path);
    if there.Known? {
      ThereAt(t, u, m, to, dir, c, there, id, path);
    }
    assert Below(u, id, id, []);
    if u.files[id].parent.Some? {
      var p := u.files[id].parent.value;
      if IsBelow(u, p, m) {
        BelowChild(u, id, m);
        assert false;
      }
      LiveStays(t, u, m, to, dir, c, there, at, p, path[..|path| - 1]);
    }
  }

  lemma LandsLive(t: Tree, u: Tree, m: FileId, to: Path, dir: FileId, c: ComponentId, there: Lookup, at: int)
    requires MoveReady(t, u, m, to, dir, c, there)
    ensures LivePath(Moved(u, m, dir, c, there, at), m, to)
  {
    LiveStays(t, u, m, to, dir, c, there, at, dir, to[..|to| - 1]);
  }

  lemma BelowChild(t: Tree, id: FileId, m: FileId)
    requires id < |t.files| && t.files[id].component < |t.names| && t.files[id].parent.Some?
    requires IsBelow(t, t.files[id].parent.value, m)
    ensures IsBelow(t, id, m)
  {
    var suffix :| Below(t, t.files[id].parent.value, m, suffix);
    var longer := suffix + [t.names[t.files[id].component]];
    assert longer[..|longer| - 1] == suffix;
    assert Below(t, id, m, longer);
  }

  /** What is live at or below the source is live at or below the destination. */
  lemma {:induction false} LiveFollows(t: Tree, u: Tree, m: FileId, from: Path, to: Path, dir: FileId, c: ComponentId,
                                       there: Lookup, at: int, id: FileId, suffix: Path)
    requires MoveReady(t, u, m, to, dir, c, there) && LivePath(u, m, from) && !(from < to)
    requires LivePath(u, id, from + suffix)
    ensures LivePath(Moved(u, m, dir, c, there, at), id, to + suffix)
    decreases |suffix|
  {
    if suffix == [] {
      assert from + suffix == from && to + suffix == to;
      LivePathUnique(u, id, m, from);
      LandsLive(t, u, m, to, dir, c, there, at);
    } else {
      var init := suffix[..|suffix| - 1];
      var was, now := from + suffix, to + suffix;
      assert was[..|was| - 1] == from + init && now[..|now| - 1] == to + init && |from + init| > 0;
      LiveFollows(t, u, m, from, to, dir, c, there, at, u.files[id].parent.value, init);
      SameRowBelow(t, u, m, from, to, dir, c, there, at, id, was);
    }
  }

  /** The row of an entry strictly below the source is not the one that is moved or freed. */
  lemma SameRowBelow(t: Tree, u: Tree, m: FileId, from: Path, to: Path, dir: FileId, c: ComponentId, there: Lookup,
                     at: int, id: FileId, path: Path)
    requires MoveReady(t, u, m, to, dir, c, there) && LivePath(u, m, from) && !(from < to)
    requires LivePath(u, id, path) && from < path
    ensures Moved(u, m, dir, c, there, at).files[id] == u.files[id]
  {
    LivePathIsPath(u, id, path);
    LivePathIsPath(u, m, from);
    if id == m {
      PathUnique(u, m, path, from);
      assert false;
    }
    if there.Known? {
      ThereAt(t, u, m, to, dir, c, there, id, path);
    }
  }

  /** The store just before the move, for a live source. */
  lemma LiveReady(db: Db, roots: seq<Path>, from: Path, to: Path, stat: Stat, at: int, m: FileId)
    requires Sound(db) && Inside(roots, from) && Inside(roots, to) && !(from < to)
    requires LivePath(db.tree, m, from)
    ensures var (u, source, dir, c, there) := Prepared(db.tree, roots, from, to);
            && source.Known? && source.id == m && MoveReady(db.tree, u, m, to, dir, c, there) && LivePath(u, m, from)
            && RecordRename(db, roots, from, to, stat, at).0.tree == Moved(u, m, dir, c, there, at)
  {
    LiveSourceKnown(db.tree, roots, from, m);
    RenameUnfolds(db, roots, from, to, stat, at);
    PreparedSource(db.tree, roots, from, to);
    PreparedDestination(db.tree, roots, from, to);
    var u := Prepared(db.tree, roots, from, to).0;
    GrowsLivePath(db.tree, u, m, from);
  }

  /** From `t` to `after`, what was live at `from` is at `to`. */
  ghost predicate Relocates(t: Tree, after: Tree, from: Path, to: Path, m: FileId) {
    && (forall id: FileId, suffix :: LivePath(t, id, from + suffix) ==> LivePath(after, id, to + suffix))
    && (!(to <= from) ==> !LiveAt(after, from))
    && (forall id: FileId :: LivePath(t, id, to) && id != m ==> id < |after.files| && !after.files[id].Live())
    && (forall id: FileId, path :: LivePath(t, id, path) && !(from <= path) && !(to <= path) ==> LivePath(after, id, path))
  }

  lemma MoveRelocates(t: Tree, u: Tree, m: FileId, from: Path, to: Path, dir: FileId, c: ComponentId, there: Lookup, at: int)
    requires MoveReady(t, u, m, to, dir, c, there) && LivePath(u, m, from) && !(from < to)
    ensures Relocates(t, Moved(u, m, dir, c, there, at), from, to, m)
  {
    var after := Moved(u, m, dir, c, there, at);
    forall id: FileId, suffix | LivePath(t, id, from + suffix) ensures LivePath(after, id, to + suffix) {
      GrowsLivePath(t, u, id, from + suffix);
      LiveFollows(t, u, m, from, to, dir, c, there, at, id, suffix);
    }
    if !(to <= from) {
      forall id: FileId ensures !LivePath(after, id, from) {
        if LivePath(after, id, from) {
          LiveBefore(t, u, m, to, dir, c, there, at, id, from);
          LivePathUnique(u, id, m, from);
          assert false;
        }
      }
    }
    forall id: FileId | LivePath(t, id, to) && id != m ensures id < |after.files| && !after.files[id].Live() {
      Displaced(t, u, m, to, dir, c, there, at, id);
    }
    forall id: FileId, path | LivePath(t, id, path) && !(from <= path) && !(to <= path) ensures LivePath(after, id, path) {
      ElsewhereStays(t, u, m, from, to, dir, c, there, at, id, path);
    }
  }

  /** Renaming what is live at `from` to a place not below it relocates it. */
  lemma RenameRelocates(db: Db, roots: seq<Path>, from: Path, to: Path, stat: Stat, at: int, m: FileId)
    requires Sound(db) && Inside(roots, from) && Inside(roots, to) && !(from < to)
    requires LivePath(db.tree, m, from)
    ensures Relocates(db.tree, RecordRename(db, roots, from, to, stat, at).0.tree, from, to, m)
  {
    LiveReady(db, roots, from, to, stat, at, m);
    var (u, source, dir, c, there) := Prepared(db.tree, roots, from, to);
    MoveRelocates(db.tree, u, m, from, to, dir, c, there, at);
  }

  /** What a rename of a live row leaves besides: the row is only put elsewhere, and the log
      has the rename with the place it came from, after the deletion of what was freed. */
  ghost predicate RenamedAs(db: Db, after: Db, outcome: Outcome, to: Path, stat: Stat, at: int, m: FileId)
    requires m < |db.tree.files| && m < |after.tree.files|
  {
    var was, now := db.tree.files[m], after.tree.files[m];
    var renamed := Event(m, Renamed, at, if stat.Found? then Some(stat.len) else None, was.parent, Some(was.component));
    && LivePath(after.tree, m, to)
    && now.size == was.size && now.mtime == was.mtime && now.isDir == was.isDir
    && outcome == Recorded(if stat.Found? && stat.isDir then None else Some(m))
    && ((after.events == db.events + [renamed] && forall id: FileId :: LivePath(db.tree, id, to) ==> id == m)
        || exists id: FileId :: FreedThere(db.tree, after.tree, id, to, m)
             && after.events == db.events + [Event(id, Deleted, at, None, None, None), renamed])
  }

  /** Row `id`, at the destination, is dead; if a row other than the moved one was live
      there, it is this one. */
  ghost predicate FreedThere(t: Tree, after: Tree, id: FileId, to: Path, m: FileId) {
    && id != m && HasPath(after, id, to) && !after.files[id].Live()
    && forall other: FileId :: LivePath(t, other, to) && other != m ==> other == id
  }

  lemma RenameInFull(db: Db, roots: seq<Path>, from: Path, to: Path, stat: Stat, at: int, m: FileId)
    requires Sound(db) && Inside(roots, from) && Inside(roots, to) && !(from < to)
    requires LivePath(db.tree, m, from)
    ensures var (after, outcome) := RecordRename(db, roots, from, to, stat, at);
            m < |after.tree.files| && RenamedAs(db, after, outcome, to, stat, at, m)
  {
    LiveReady(db, roots, from, to, stat, at, m);
    var (u, source, dir, c, there) := Prepared(db.tree, roots, from, to);
    RenameUnfolds(db, roots, from, to, stat, at);
    UntouchedSource(db.tree, roots, from, to, m);
    LandsLive(db.tree, u, m, to, dir, c, there, at);
    RenameOutcome(db, roots, from, to, stat, at);
    LoggedInFull(db, u, source, to, dir, c, there, stat, at);
  }

  lemma RenameOutcome(db: Db, roots: seq<Path>, from: Path, to: Path, stat: Stat, at: int)
    requires Sound(db) && Inside(roots, to) && LookupFile(db.tree, roots, from).1.Known?
    ensures var m := LookupFile(db.tree, roots, from).1.id;
            RecordRename(db, roots, from, to, stat, at).1 == Recorded(if stat.Found? && stat.isDir then None else Some(m))
  {
  }

  lemma LoggedInFull(db: Db, u: Tree, source: Lookup, to: Path, dir: FileId, c: ComponentId, there: Lookup, stat: Stat, at: int)
    requires source.Known? && source.id < |db.tree.files| && MoveReady(db.tree, u, source.id, to, dir, c, there)
    requires LivePath(Moved(u, source.id, dir, c, there, at), source.id, to)
    requires u.files[source.id] == db.tree.files[source.id]
    requires u.files[source.id].At(Some(source.parent), source.component)
    ensures RenamedAs(db, Db(Moved(u, source.id, dir, c, there, at), db.events + RenameEvents(source, there, stat, at)),
                      Recorded(if stat.Found? && stat.isDir then None else Some(source.id)), to, stat, at, source.id)
  {
    var m := source.id;
    forall id: FileId | LivePath(db.tree, id, to) && id != m ensures there.Known? && there.id == id {
      Displaced(db.tree, u, m, to, dir, c, there, at, id);
    }
    if there.Known? && there.id != m {
      FreedPlace(db.tree, u, m, to, dir, c, there, at);
      assert FreedThere(db.tree, Moved(u, m, dir, c, there, at), there.id, to, m);
      assert RenameEvents(source, there, stat, at)
          == [NewEvent(there.id, Deleted, at, None), RenamedEvent(source, stat, at)];
    } else {
      assert RenameEvents(source, there, stat, at) == [RenamedEvent(source, stat, at)];
    }
  }

  /** Neither look-up nor destination chain touches the source's row. */
  lemma UntouchedSource(t: Tree, roots: seq<Path>, from: Path, to: Path, m: FileId)
    requires Valid(t) && Inside(roots, from) && Inside(roots, to) && !(from < to)
    requires LivePath(t, m, from) && LookupFile(t, roots, from).1.Known?
    ensures var (u, source, _, _, _) := Prepared(t, roots, from, to);
            m < |u.files| && u.files[m] == t.files[m]
            && source.Known? && t.files[m].At(Some(source.parent), source.component)
  {
    var root := OwningRoot(roots, to).value;
    var (t0, source) := LookupFile(t, roots, from);
    LivePathIsPath(t, m, from);
    LookupKeeps(t, roots, from, m, from);
    LiveSourceKnown(t, roots, from, m);
    LookupAt(t, roots, from);
    DestinationKeeps(t0, roots, to, m, from);
  }

  lemma LookupAt(t: Tree, roots: seq<Path>, path: Path)
    requires Valid(t) && Inside(roots, path)
    ensures var (u, found) := LookupFile(t, roots, path);
            found.Known? ==> u.files[found.id].At(Some(found.parent), found.component)
  {
    LookupFileFacts(t, roots, path);
  }

  /** A look-up leaves the rows that are not on its root's chain alone. */
  lemma LookupKeeps(t: Tree, roots: seq<Path>, path: Path, id: FileId, at: Path)
    requires Valid(t) && Inside(roots, path) && HasPath(t, id, at) && !(at <= path[..|path| - 1])
    ensures var u := LookupFile(t, roots, path).0;
            Valid(u) && id < |u.files| && u.files[id] == t.files[id] && HasPath(u, id, at)
  {
    var root := OwningRoot(roots, path).value;
    LookupFileFacts(t, roots, path);
    ExtendsPath(t, LookupFile(t, roots, path).0, id, at);
    assert [] + root == root && root <= path[..|path| - 1];
    EnsureDirsFrame(t, None, [], root, id, at);
  }

  lemma DestinationKeeps(t: Tree, roots: seq<Path>, to: Path, id: FileId, at: Path)
    requires Valid(t) && Inside(roots, to) && HasPath(t, id, at) && !(at < to)
    ensures var u := Destination(t, roots, OwningRoot(roots, to).value, to).0;
            id < |u.files| && u.files[id] == t.files[id]
  {
    var root, parent := OwningRoot(roots, to).value, to[..|to| - 1];
    InsideParent(roots, to);
    EnterParentFacts(t, root, to);
    var t1 := EnterParent(t, root, to).0;
    assert [] + parent == parent && !(at <= parent);
    EnsureDirsFrame(t, None, [], parent, id, at);
    ExtendsPath(t, t1, id, at);
    InternFacts(t1, to[|to| - 1]);
    var t2 := Intern(t1, to[|to| - 1]).0;
    ExtendsPath(t1, t2, id, at);
    LookupKeeps(t2, roots, to, id, at);
  }

  lemma FreedPlace(t: Tree, u: Tree, m: FileId, to: Path, dir: FileId, c: ComponentId, there: Lookup, at: int)
    requires MoveReady(t, u, m, to, dir, c, there) && there.Known? && there.id != m
    ensures var after := Moved(u, m, dir, c, there, at);
            HasPath(after, there.id, to) && !after.files[there.id].Live()
  {
    LivePathIsPath(u, dir, to[..|to| - 1]);
    MovedElsewhere(t, u, m, to, dir, c, there, at, dir, to[..|to| - 1]);
  }

  lemma Displaced(t: Tree, u: Tree, m: FileId, to: Path, dir: FileId, c: ComponentId, there: Lookup, at: int, id: FileId)
    requires MoveReady(t, u, m, to, dir, c, there) && LivePath(t, id, to) && id != m
    ensures var after := Moved(u, m, dir, c, there, at);
            there.Known? && there.id == id && id < |after.files| && !after.files[id].Live()
  {
    GrowsLivePath(t, u, id, to);
    var parent := to[..|to| - 1];
    LivePathUnique(u, u.files[id].parent.value, dir, parent);
    LookupNameAt(u.names, c);
    LookupNameAt(u.names, u.files[id].component);
    PickLive(u.files, Some(dir), c, id);
  }

  lemma ElsewhereStays(t: Tree, u: Tree, m: FileId, from: Path, to: Path, dir: FileId, c: ComponentId, there: Lookup,
                       at: int, id: FileId, path: Path)
    requires MoveReady(t, u, m, to, dir, c, there) && LivePath(u, m, from)
    requires LivePath(t, id, path) && !(from <= path) && !(to <= path)
    ensures LivePath(Moved(u, m, dir, c, there, at), id, path)
  {
    GrowsLivePath(t, u, id, path);
    LivePathIsPath(u, id, path);
    LivePathIsPath(u, m, from);
    if IsBelow(u, id, m) {
      BelowIsPrefix(u, id, m, path, from);
      assert false;
    }
    LiveStays(t, u, m, to, dir, c, there, at, id, path);
  }

  // ------------------------------------------------- a directory into itself

  /** Any live source renamed to a place below itself breaks the tree. */
  lemma RenameIntoItselfBreaks(db: Db, roots: seq<Path>, from: Path, to: Path, stat: Stat, at: int, m: FileId)
    requires Sound(db) && Inside(roots, from) && Inside(roots, to) && from < to
    requires LivePath(db.tree, m, from)
    ensures !Sound(RecordRename(db, roots, from, to, stat, at).0)
  {
    LiveSourceKnown(db.tree, roots, from, m);
    RenameKeepsTreeIff(db, roots, from, to, stat, at);
  }

  /** A root and one directory in it. */
  function TwoDirectories(): Db {
    var home := FileRow(None, 0, true, None, None, None);
    var docs := FileRow(Some(0), 1, true, None, None, None);
    Db(Tree(["home", "docs"], [home, docs]), [])
  }

  lemma DocsIntoItselfBreaks(stat: Stat, at: int)
    ensures Sound(TwoDirectories())
    ensures !Sound(RecordRename(TwoDirectories(), [["home"]], ["home", "docs"], ["home", "docs", "old"], stat, at).0)
  {
    var t := TwoDirectories().tree;
    var home, docs := ["home"], ["home", "docs"];
    assert docs[..1] == home;
    assert LivePath(t, 0, home) && LivePath(t, 1, docs);
    assert HasPath(t, 0, home) && HasPath(t, 1, docs);
    assert Resolves(t, 0) && Resolves(t, 1);
    assert OwningRoot([home], docs) == Some(home) && OwningRoot([home], docs + ["old"]) == Some(home);
    assert docs + ["old"] == ["home", "docs", "old"];
    RenameIntoItselfBreaks(TwoDirectories(), [home], docs, docs + ["old"], stat, at, 1);
  }
}
