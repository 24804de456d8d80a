// Renames: one row update that must rewrite the path of a whole subtree, keep every
// other path, and never make the tree cyclic.
module Renaming {
  import opened Tables
  import opened PathTree
  import opened Paths
  import opened Recording

  /** Strictly inside its watch root, which is not the filesystem root. */
  predicate Inside(roots: seq<Path>, path: Path) {
    OwningRoot(roots, path).Some? && OwningRoot(roots, path).value != [] && OwningRoot(roots, path).value < path
  }

  /** No root is the filesystem root, neither endpoint is a root itself, and nothing is
      renamed to a place below itself. */
  predicate Movable(roots: seq<Path>, from: Path, to: Path) {
    && [] !in roots && !(from < to)
    && (OwningRoot(roots, from).None? || Inside(roots, from))
    && (OwningRoot(roots, to).None? || Inside(roots, to))
  }

  lemma ParentDirsInside(root: Path, path: Path)
    requires root < path
    ensures ParentDirs(root, path) == path[..|path| - 1] && RecordedPath(root, path) == path
  {
    assert path == path[..|path| - 1] + [path[|path| - 1]];
  }

  lemma InsideParent(roots: seq<Path>, path: Path)
    requires Inside(roots, path)
    ensures path != []
    ensures ParentDirs(OwningRoot(roots, path).value, path) == path[..|path| - 1]
    ensures RecordedPath(OwningRoot(roots, path).value, path) == path
  {
    ParentDirsInside(OwningRoot(roots, path).value, path);
  }

  /** The tree just before the destination is freed and the row moved. */
  function Prepared(t: Tree, roots: seq<Path>, from: Path, to: Path): (Tree, Lookup, FileId, ComponentId, Lookup)
    requires Inside(roots, to)
  {
    var (t0, source) := LookupFile(t, roots, from);
    var (u, dir, c, there) := Destination(t0, roots, OwningRoot(roots, to).value, to);
    (u, source, dir.value, c, there)
  }

  lemma PreparedSource(t: Tree, roots: seq<Path>, from: Path, to: Path)
    requires Valid(t) && Inside(roots, from) && Inside(roots, to)
    requires LookupFile(t, roots, from).1.Known?
    ensures var (u, source, dir, c, there) := Prepared(t, roots, from, to);
            && Valid(u) && Grows(t, u)
            && HasPath(u, source.id, from) && HasPath(u, source.parent, from[..|from| - 1])
            && u.files[source.id].At(Some(source.parent), source.component)
            && u.names[source.component] == from[|from| - 1]
            && (IsBelow(u, dir, source.id) <==> from < to)
  {
    var root := OwningRoot(roots, to).value;
    var (t0, source) := LookupFile(t, roots, from);
    LookupFileFacts(t, roots, from);
    InsideParent(roots, from);
    EnterParentFacts(t0, root, to);
    var (t1, dir) := EnterParent(t0, root, to);
    DestinationBelowSource(t0, roots, from, to, source.id);
    PreparedGrows(t1, roots, to);
    var t3 := LookupFile(Intern(t1, to[|to| - 1]).0, roots, to).0;
    GrowsTransitive(t0, t1, t3);
    GrowsTransitive(t, t0, t3);
    ExtendsPath(t0, t3, source.id, from);
    ExtendsPath(t0, t3, source.parent, from[..|from| - 1]);
    assert SamePlace(t0.files[source.id], t3.files[source.id]);
    NotBelowExtends(t1, t3, dir.value, source.id);
  }

  lemma PreparedGrows(t: Tree, roots: seq<Path>, to: Path)
    requires Valid(t) && Inside(roots, to)
    ensures var u := LookupFile(Intern(t, to[|to| - 1]).0, roots, to).0;
            Valid(u) && Grows(t, u)
  {
    InternFacts(t, to[|to| - 1]);
    var t1 := Intern(t, to[|to| - 1]).0;
    LookupFileFacts(t1, roots, to);
    GrowsTransitive(t, t1, LookupFile(t1, roots, to).0);
  }

  lemma PreparedDestination(t: Tree, roots: seq<Path>, from: Path, to: Path)
    requires Valid(t) && Inside(roots, from) && Inside(roots, to)
    ensures var (u, source, dir, c, there) := Prepared(t, roots, from, to);
            && LivePath(u, dir, to[..|to| - 1])
            && c < |u.names| && u.names[c] == to[|to| - 1]
            && IsLookup(u, dir, c, there)
  {
    LookupFileFacts(t, roots, from);
    var t0 := LookupFile(t, roots, from).0;
    InsideParent(roots, to);
    EnterParentFacts(t0, OwningRoot(roots, to).value, to);
    var (t1, dir) := EnterParent(t0, OwningRoot(roots, to).value, to);
    DestinationLookup(t1, roots, to, dir.value);
  }

  /** The second lookup goes through the directory just ensured, so it finds exactly what
      the destination location's query returns. */
  lemma DestinationLookup(t: Tree, roots: seq<Path>, to: Path, dir: FileId)
    requires Valid(t) && Inside(roots, to) && LivePath(t, dir, to[..|to| - 1])
    ensures var (t1, c) := Intern(t, to[|to| - 1]);
            var (u, there) := LookupFile(t1, roots, to);
            && LivePath(u, dir, to[..|to| - 1])
            && c < |u.names| && u.names[c] == to[|to| - 1]
            && IsLookup(u, dir, c, there)
  {
    var root := OwningRoot(roots, to).value;
    var name := to[|to| - 1];
    var (t1, c) := Intern(t, name);
    InternFacts(t, name);
    LookupNameAt(t1.names, c);
    LookupParentLive(t, t1, root, to, dir);
    var (u, found, ok) := LookupParent(t1, root, to);
    assert LookupFile(t1, roots, to).0 == u;
  }

  lemma LookupParentLive(t: Tree, t1: Tree, root: Path, to: Path, dir: FileId)
    requires Valid(t) && Valid(t1) && Grows(t, t1) && root != [] && root < to
    requires LivePath(t, dir, to[..|to| - 1])
    ensures var (u, found, ok) := LookupParent(t1, root, to);
            ok && found == Some(dir) && Grows(t1, u) && LivePath(u, dir, to[..|to| - 1])
  {
    var parent := to[..|to| - 1];
    ParentDirsInside(root, to);
    LookupParentFacts(t1, root, to);
    var u := LookupParent(t1, root, to).0;
    GrowsTransitive(t, t1, u);
    GrowsLivePath(t, u, dir, parent);
    assert [] + parent == parent;
    FindDirsLive(u, None, [], parent, dir);
  }

  ghost predicate IsLookup(t: Tree, dir: FileId, c: ComponentId, there: Lookup) {
    match Pick(t.files, Some(dir), c)
    case Some(id) => there == Known(id, dir, c)
    case None => there == Unknown
  }

  /** The destination directory's row is below the source's row exactly when the
      destination path is below the source path. */
  lemma DestinationBelowSource(t: Tree, roots: seq<Path>, from: Path, to: Path, m: FileId)
    requires Valid(t) && Inside(roots, to) && from != []
    requires HasPath(t, m, from) && FindDirs(t, None, from) == Some(m)
    ensures var (u, dir) := EnterParent(t, OwningRoot(roots, to).value, to);
            IsBelow(u, dir.value, m) <==> from < to
  {
    var root, parent := OwningRoot(roots, to).value, to[..|to| - 1];
    InsideParent(roots, to);
    EnterParentFacts(t, root, to);
    EnsuredBelowIff(t, parent, from, m);
    assert to == parent + [to[|to| - 1]];
  }

  lemma EnsuredBelowIff(t: Tree, parent: Path, from: Path, m: FileId)
    requires Valid(t) && parent != [] && from != []
    requires HasPath(t, m, from) && FindDirs(t, None, from) == Some(m)
    ensures var (u, dir) := EnsureDirs(t, None, parent);
            IsBelow(u, dir.value, m) <==> from <= parent
  {
    EnsuredBelowOnly(t, parent, from, m);
    if from <= parent {
      var rest := parent[|from|..];
      assert parent == from + rest;
      EnsuredGoesThrough(t, from, rest, m);
    }
  }

  lemma EnsuredBelowOnly(t: Tree, parent: Path, from: Path, m: FileId)
    requires Valid(t) && parent != [] && HasPath(t, m, from)
    ensures var (u, dir) := EnsureDirs(t, None, parent);
            IsBelow(u, dir.value, m) ==> from <= parent
  {
    var (u, dir) := EnsureDirs(t, None, parent);
    EnsureDirsFacts(t, None, [], parent);
    assert [] + parent == parent;
    ExtendsPath(t, u, m, from);
    LivePathIsPath(u, dir.value, parent);
    if IsBelow(u, dir.value, m) {
      BelowIsPrefix(u, dir.value, m, parent, from);
    }
  }

  lemma BelowIsPrefix(t: Tree, id: FileId, m: FileId, path: Path, top: Path)
    requires HasPath(t, id, path) && HasPath(t, m, top) && IsBelow(t, id, m)
    ensures top <= path
  {
    var suffix :| Below(t, id, m, suffix);
    BelowPath(t, id, m, suffix, top);
    PathUnique(t, id, path, top + suffix);
  }

  /** A chain ensured through a path a lookup resolves goes through the row found. */
  lemma EnsuredGoesThrough(t: Tree, from: Path, rest: Path, m: FileId)
    requires Valid(t) && from != [] && FindDirs(t, None, from) == Some(m)
    ensures var (u, id) := EnsureDirs(t, None, from + rest);
            id.Some? && IsBelow(u, id.value, m)
  {
    EnsureDirsSplit(t, None, from, rest);
    var (v, _) := EnsureDirs(t, None, from);
    EnsureDirsFacts(t, None, [], from);
    assert [] + from == from;
    EnsureDirsFollowsFind(t, None, [], from);
    EnsureDirsFacts(v, Some(m), from, rest);
    var (u, id) := EnsureDirs(v, Some(m), rest);
    GrowsLivePath(v, u, m, from);
    var up := LiveAncestor(u, id.value, from, rest);
    LivePathUnique(u, up, m, from);
  }

  /** Freeing the destination: a row there, other than the moved one, is tombstoned. */
  function Freed(t: Tree, m: FileId, there: Lookup, at: int): Tree
    requires there.Known? ==> there.id < |t.files|
  {
    if there.Known? && there.id != m then Tombstone(t, there.id, at) else t
  }

  lemma FreedFacts(t: Tree, m: FileId, dir: FileId, c: ComponentId, there: Lookup, at: int)
    requires Valid(t)
    requires IsLookup(t, dir, c, there)
    ensures var u := Freed(t, m, there, at);
            && Valid(u) && Extends(t, u) && |u.files| == |t.files|
            && forall i :: 0 <= i < |u.files| && i != m && u.files[i].At(Some(dir), c) ==> !u.files[i].Live()
  {
    if there.Known? {
      TombstoneFacts(t, there.id, at);
    }
    forall i: FileId | i < |t.files| && i != m && t.files[i].At(Some(dir), c) && t.files[i].Live()
      ensures there.Known? && there.id == i
    {
      PickLive(t.files, Some(dir), c, i);
    }
    ExtendsRefl(t);
  }

  lemma ExtendsRefl(t: Tree)
    ensures Extends(t, t)
  {
  }

  /** What a move starts from: `t` before anything was prepared, `u` prepared. */
  ghost predicate MoveReady(t: Tree, u: Tree, m: FileId, to: Path, dir: FileId, c: ComponentId, there: Lookup) {
    && Valid(t) && Valid(u) && Grows(t, u) && m < |u.files|
    && to != [] && LivePath(u, dir, to[..|to| - 1])
    && c < |u.names| && u.names[c] == to[|to| - 1]
    && !IsBelow(u, dir, m)
    && IsLookup(u, dir, c, there)
  }

  function Moved(u: Tree, m: FileId, dir: FileId, c: ComponentId, there: Lookup, at: int): Tree
    requires m < |u.files| && (there.Known? ==> there.id < |u.files|)
  {
    Move(Freed(u, m, there, at), m, dir, c)
  }

  lemma FreedReady(t: Tree, u: Tree, m: FileId, to: Path, dir: FileId, c: ComponentId, there: Lookup, at: int)
    requires MoveReady(t, u, m, to, dir, c, there)
    ensures var f := Freed(u, m, there, at);
            && Valid(f) && Extends(u, f) && |f.files| == |u.files| && f.names == u.names
            && HasPath(f, dir, to[..|to| - 1]) && !IsBelow(f, dir, m)
            && forall i :: 0 <= i < |f.files| && i != m && f.files[i].At(Some(dir), c) ==> !f.files[i].Live()
  {
    FreedFacts(u, m, dir, c, there, at);
    var f := Freed(u, m, there, at);
    LivePathIsPath(u, dir, to[..|to| - 1]);
    ExtendsPath(u, f, dir, to[..|to| - 1]);
    NotBelowExtends(u, f, dir, m);
  }

  lemma MovedValid(t: Tree, u: Tree, m: FileId, to: Path, dir: FileId, c: ComponentId, there: Lookup, at: int)
    requires MoveReady(t, u, m, to, dir, c, there)
    ensures Valid(Moved(u, m, dir, c, there, at))
  {
    FreedReady(t, u, m, to, dir, c, there, at);
    MoveValid(Freed(u, m, there, at), m, dir, to[..|to| - 1], c);
  }

  lemma MovedBelow(t: Tree, u: Tree, m: FileId, to: Path, dir: FileId, c: ComponentId, there: Lookup, at: int,
                   id: FileId, suffix: Path)
    requires MoveReady(t, u, m, to, dir, c, there) && Below(t, id, m, suffix)
    ensures HasPath(Moved(u, m, dir, c, there, at), id, to + suffix)
  {
    FreedReady(t, u, m, to, dir, c, there, at);
    var f := Freed(u, m, there, at);
    BelowGrows(t, u, id, m, suffix);
    ExtendsBelow(u, f, id, m, suffix);
    MoveSubtree(f, m, dir, to[..|to| - 1], c, id, suffix);
    assert to == to[..|to| - 1] + [f.names[c]];
  }

  lemma MovedElsewhere(t: Tree, u: Tree, m: FileId, to: Path, dir: FileId, c: ComponentId, there: Lookup, at: int,
                       id: FileId, path: Path)
    requires MoveReady(t, u, m, to, dir, c, there)
    requires (HasPath(t, id, path) && !IsBelow(t, id, m)) || (HasPath(u, id, path) && !IsBelow(u, id, m))
    ensures HasPath(Moved(u, m, dir, c, there, at), id, path)
  {
    FreedReady(t, u, m, to, dir, c, there, at);
    var f := Freed(u, m, there, at);
    if HasPath(t, id, path) && !IsBelow(t, id, m) {
      NotBelowExtends(t, u, id, m);
      ExtendsPath(t, u, id, path);
    }
    NotBelowExtends(u, f, id, m);
    ExtendsPath(u, f, id, path);
    MoveElsewhere(f, m, dir, c, id, path);
  }

  lemma NotBelowExtends(t: Tree, u: Tree, id: FileId, m: FileId)
    requires Extends(t, u) && Rooted(t) && id < |t.files|
    ensures IsBelow(t, id, m) <==> IsBelow(u, id, m)
  {
    forall suffix ensures Below(t, id, m, suffix) <==> Below(u, id, m, suffix) {
      ExtendsBelow(t, u, id, m, suffix);
    }
  }

  lemma BelowGrows(t: Tree, u: Tree, id: FileId, m: FileId, suffix: Path)
    requires Grows(t, u) && Rooted(t) && Below(t, id, m, suffix) && m < |u.files|
    ensures Below(u, id, m, suffix) && id < |u.files|
  {
    if id < |t.files| {
      ExtendsBelow(t, u, id, m, suffix);
    } else {
      assert suffix == [];
    }
  }

  lemma ParentNotBelow(t: Tree, m: FileId)
    requires Rooted(t) && m < |t.files| && t.files[m].parent.Some?
    ensures !IsBelow(t, t.files[m].parent.value, m)
  {
    RootedResolves(t, m);
    var p := t.files[m].parent.value;
    if IsBelow(t, p, m) {
      var suffix :| Below(t, p, m, suffix);
      var cycle := suffix + [t.names[t.files[m].component]];
      assert cycle[..|cycle| - 1] == suffix;
      NoCycle(t, m, cycle);
      assert false;
    }
  }

  lemma CycleFromBefore(u: Tree, m: FileId, dir: FileId, c: ComponentId, there: Lookup, at: int)
    requires Valid(u) && m < |u.files| && dir < |u.files| && c < |u.names|
    requires IsBelow(u, dir, m) && IsLookup(u, dir, c, there)
    ensures !Valid(Moved(u, m, dir, c, there, at))
  {
    FreedFacts(u, m, dir, c, there, at);
    var f := Freed(u, m, there, at);
    NotBelowExtends(u, f, dir, m);
    MoveBelowItself(f, m, dir, c);
  }

  // ------------------------------------------------------------ theorems

  /** The events a rename of `source` appends. */
  function RenameEvents(source: Lookup, there: Lookup, stat: Stat, at: int): seq<Event>
    requires source.Known?
  {
    (if there.Known? && there.id != source.id then [NewEvent(there.id, Deleted, at, None)] else [])
    + [RenamedEvent(source, stat, at)]
  }

  /** What RecordRename does to a known source, in terms of the prepared tree. */
  lemma RenameUnfolds(db: Db, roots: seq<Path>, from: Path, to: Path, stat: Stat, at: int)
    requires Sound(db) && Inside(roots, from) && Inside(roots, to)
    requires LookupFile(db.tree, roots, from).1.Known?
    ensures var (u, source, dir, c, there) := Prepared(db.tree, roots, from, to);
            && source.id < |u.files| && (there.Known? ==> there.id < |u.files|)
            && RecordRename(db, roots, from, to, stat, at).0
               == Db(Moved(u, source.id, dir, c, there, at), db.events + RenameEvents(source, there, stat, at))
  {
    PreparedSource(db.tree, roots, from, to);
    PreparedDestination(db.tree, roots, from, to);
    var (u, source, dir, c, there) := Prepared(db.tree, roots, from, to);
    FreeMoveLogUnfolds(Db(u, db.events), source, dir, c, there, stat, at);
  }

  lemma FreeMoveLogUnfolds(db: Db, source: Lookup, dir: FileId, c: ComponentId, there: Lookup, stat: Stat, at: int)
    requires source.Known? && source.id < |db.tree.files| && (there.Known? ==> there.id < |db.tree.files|)
    ensures FreeMoveLog(db, RenamedEvent(source, stat, at), dir, c, there, at)
            == Db(Moved(db.tree, source.id, dir, c, there, at), db.events + RenameEvents(source, there, stat, at))
  {
    var renamed := RenamedEvent(source, stat, at);
    if there.Known? && there.id != source.id {
      var deleted := NewEvent(there.id, Deleted, at, None);
      assert db.events + [deleted] + [renamed] == db.events + [deleted, renamed];
    }
  }

  /** Renaming a known source to a place not below it: the row keeps its id and lands at
      the destination, everything below it follows, and nothing else moves. */
  lemma RenameRewritesSubtree(db: Db, roots: seq<Path>, from: Path, to: Path, stat: Stat, at: int)
    requires Sound(db) && Inside(roots, from) && Inside(roots, to)
    requires LookupFile(db.tree, roots, from).1.Known?
    requires !(from < to)
    ensures var m := LookupFile(db.tree, roots, from).1.id;
            var after := RecordRename(db, roots, from, to, stat, at).0;
            && Valid(after.tree)
            && (forall id: FileId, suffix :: Below(db.tree, id, m, suffix) ==> HasPath(after.tree, id, to + suffix))
            && (forall id: FileId, path :: HasPath(db.tree, id, path) && !IsBelow(db.tree, id, m)
                  ==> HasPath(after.tree, id, path))
  {
    RenameUnfolds(db, roots, from, to, stat, at);
    PreparedSource(db.tree, roots, from, to);
    PreparedDestination(db.tree, roots, from, to);
    var (u, source, dir, c, there) := Prepared(db.tree, roots, from, to);
    var m := source.id;
    var v := Moved(u, m, dir, c, there, at);
    assert MoveReady(db.tree, u, m, to, dir, c, there);
    MovedValid(db.tree, u, m, to, dir, c, there, at);
    forall id: FileId, suffix | Below(db.tree, id, m, suffix) ensures HasPath(v, id, to + suffix) {
      MovedBelow(db.tree, u, m, to, dir, c, there, at, id, suffix);
    }
    forall id: FileId, path | HasPath(db.tree, id, path) && !IsBelow(db.tree, id, m) ensures HasPath(v, id, path) {
      MovedElsewhere(db.tree, u, m, to, dir, c, there, at, id, path);
    }
  }

  /** `e` is a rename of row `m` whose previous location resolves to `from`. */
  ghost predicate IsRenameFrom(t: Tree, e: Event, m: FileId, from: Path)
    requires from != []
  {
    && e.fileId == m && e.kind == Renamed && e.prevParent.Some? && e.prevComponent.Some?
    && HasPath(t, e.prevParent.value, from[..|from| - 1])
    && e.prevComponent.value < |t.names| && t.names[e.prevComponent.value] == from[|from| - 1]
  }

  /** The log only grows, and ends in a rename of the moved row whose previous location
      resolves to the source path. */
  lemma RenameEvent(db: Db, roots: seq<Path>, from: Path, to: Path, stat: Stat, at: int)
    requires Sound(db) && Inside(roots, from) && Inside(roots, to)
    requires LookupFile(db.tree, roots, from).1.Known?
    requires !(from < to)
    ensures var after := RecordRename(db, roots, from, to, stat, at).0;
            && db.events < after.events && EventsResolve(after)
            && IsRenameFrom(after.tree, after.events[|after.events| - 1], LookupFile(db.tree, roots, from).1.id, from)
  {
    RenameUnfolds(db, roots, from, to, stat, at);
    PreparedSource(db.tree, roots, from, to);
    PreparedDestination(db.tree, roots, from, to);
    var (u, source, dir, c, there) := Prepared(db.tree, roots, from, to);
    assert MoveReady(db.tree, u, source.id, to, dir, c, there);
    RenameLog(db, u, source, from, to, dir, c, there, stat, at);
  }

  lemma RenameLog(db: Db, u: Tree, source: Lookup, from: Path, to: Path, dir: FileId, c: ComponentId, there: Lookup, stat: Stat, at: int)
    requires Sound(db) && source.Known? && from != [] && MoveReady(db.tree, u, source.id, to, dir, c, there)
    requires u.files[source.id].At(Some(source.parent), source.component)
    requires HasPath(u, source.parent, from[..|from| - 1]) && source.component < |u.names|
    requires u.names[source.component] == from[|from| - 1]
    ensures var after := Db(Moved(u, source.id, dir, c, there, at), db.events + RenameEvents(source, there, stat, at));
            && db.events < after.events && EventsResolve(after)
            && IsRenameFrom(after.tree, after.events[|after.events| - 1], source.id, from)
  {
    var tree, events := Moved(u, source.id, dir, c, there, at), RenameEvents(source, there, stat, at);
    SourceParentStays(db.tree, u, source, to, dir, c, there, at, from[..|from| - 1]);
    RenameEventsFacts(source, there, stat, at);
    assert EventsResolve(Db(tree, events));
    Appended(db.events, events);
    AppendResolves(db, tree, events);
  }

  lemma Appended(before: seq<Event>, more: seq<Event>)
    requires more != []
    ensures before < before + more && (before + more)[|before + more| - 1] == more[|more| - 1]
  {
  }

  lemma SourceParentStays(t: Tree, u: Tree, source: Lookup, to: Path, dir: FileId, c: ComponentId, there: Lookup, at: int,
                          parent: Path)
    requires source.Known? && MoveReady(t, u, source.id, to, dir, c, there)
    requires u.files[source.id].At(Some(source.parent), source.component) && HasPath(u, source.parent, parent)
    ensures var v := Moved(u, source.id, dir, c, there, at);
            HasPath(v, source.parent, parent) && |v.files| == |u.files| && v.names == u.names && Grows(t, u)
    ensures source.parent < |u.files| && source.component < |u.names|
  {
    ParentNotBelow(u, source.id);
    RootedResolves(u, source.id);
    MovedElsewhere(t, u, source.id, to, dir, c, there, at, source.parent, parent);
  }

  lemma RenameEventsFacts(source: Lookup, there: Lookup, stat: Stat, at: int)
    requires source.Known?
    ensures var events := RenameEvents(source, there, stat, at);
            && events != [] && events[|events| - 1] == RenamedEvent(source, stat, at)
            && forall e :: e in events ==>
                 e == RenamedEvent(source, stat, at) || (there.Known? && e == NewEvent(there.id, Deleted, at, None))
  {
  }

  lemma AppendResolves(db: Db, tree: Tree, events: seq<Event>)
    requires EventsResolve(db) && EventsResolve(Db(tree, events))
    requires |db.tree.files| <= |tree.files| && |db.tree.names| <= |tree.names|
    ensures EventsResolve(Db(tree, db.events + events))
  {
  }

  /** A rename keeps the tree acyclic, rooted and free of doubly occupied locations
      exactly when its destination is not below its source. */
  lemma RenameKeepsTreeIff(db: Db, roots: seq<Path>, from: Path, to: Path, stat: Stat, at: int)
    requires Sound(db) && Inside(roots, from) && Inside(roots, to)
    requires LookupFile(db.tree, roots, from).1.Known?
    ensures Sound(RecordRename(db, roots, from, to, stat, at).0) <==> !(from < to)
  {
    RenameUnfolds(db, roots, from, to, stat, at);
    PreparedSource(db.tree, roots, from, to);
    PreparedDestination(db.tree, roots, from, to);
    var (u, source, dir, c, there) := Prepared(db.tree, roots, from, to);
    if from < to {
      CycleFromBefore(u, source.id, dir, c, there, at);
    } else {
      MovedValid(db.tree, u, source.id, to, dir, c, there, at);
      RenameEvent(db, roots, from, to, stat, at);
    }
  }

  /** What the timeline shows as the previous path of a rename. */
  function PreviousPath(t: Tree, parent: Option<FileId>, component: ComponentId): Option<string> {
    if component >= |t.names| then None
    else Some((if parent.Some? then Resolved(t, parent.value) else "") + "/" + t.names[component])
  }

  /** After a rename the moved row's earlier events resolve to the new path, and the new
      event's previous path is the source path. */
  lemma RenameTimeline(db: Db, roots: seq<Path>, from: Path, to: Path, stat: Stat, at: int)
    requires Sound(db) && Inside(roots, from) && Inside(roots, to)
    requires LookupFile(db.tree, roots, from).1.Known?
    requires !(from < to) && |from| <= MAX_DEPTH && |to| <= MAX_DEPTH
    ensures var m := LookupFile(db.tree, roots, from).1.id;
            var after := RecordRename(db, roots, from, to, stat, at).0;
            var last := after.events[|after.events| - 1];
            && (forall k :: 0 <= k < |db.events| ==> after.events[k] == db.events[k])
            && Resolved(after.tree, m) == Render(to)
            && last.fileId == m && last.prevComponent.Some?
            && PreviousPath(after.tree, last.prevParent, last.prevComponent.value) == Some(Render(from))
  {
    RenameEvent(db, roots, from, to, stat, at);
    RenameLands(db, roots, from, to, stat, at);
    var after := RecordRename(db, roots, from, to, stat, at).0;
    ShownPaths(after.tree, LookupFile(db.tree, roots, from).1.id, to, after.events[|after.events| - 1], from);
    KeptEvents(db.events, after.events);
  }

  lemma KeptEvents(before: seq<Event>, after: seq<Event>)
    requires before <= after
    ensures forall k :: 0 <= k < |before| ==> after[k] == before[k]
  {
  }

  /** The moved row itself is at the destination. */
  lemma RenameLands(db: Db, roots: seq<Path>, from: Path, to: Path, stat: Stat, at: int)
    requires Sound(db) && Inside(roots, from) && Inside(roots, to)
    requires LookupFile(db.tree, roots, from).1.Known? && !(from < to)
    ensures HasPath(RecordRename(db, roots, from, to, stat, at).0.tree, LookupFile(db.tree, roots, from).1.id, to)
  {
    var m := LookupFile(db.tree, roots, from).1.id;
    RenameRewritesSubtree(db, roots, from, to, stat, at);
    assert Below(db.tree, m, m, []);
    assert to + [] == to;
  }

  lemma ShownPaths(t: Tree, m: FileId, to: Path, e: Event, from: Path)
    requires HasPath(t, m, to) && from != [] && IsRenameFrom(t, e, m, from)
    requires |from| <= MAX_DEPTH && |to| <= MAX_DEPTH
    ensures Resolved(t, m) == Render(to)
    ensures PreviousPath(t, e.prevParent, e.prevComponent.value) == Some(Render(from))
  {
    DeepestPath(t, m, to, MAX_DEPTH);
    DeepestPath(t, e.prevParent.value, from[..|from| - 1], MAX_DEPTH);
  }

  /** Every rename, known source or not, keeps the store sound unless it moves a known row
      below itself. */
  lemma RenameSound(db: Db, roots: seq<Path>, from: Path, to: Path, stat: Stat, at: int)
    requires Sound(db) && Movable(roots, from, to)
    ensures Sound(RecordRename(db, roots, from, to, stat, at).0)
  {
    if OwningRoot(roots, to).None? {
      RemovalSound(db, roots, from, at);
    } else {
      LookupFileFacts(db.tree, roots, from);
      var (t0, source) := LookupFile(db.tree, roots, from);
      if source.Known? {
        RenameKeepsTreeIff(db, roots, from, to, stat, at);
      } else {
        PathSound(Db(t0, db.events), roots, to, stat, at);
      }
    }
  }
}
