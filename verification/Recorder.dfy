// The observer's statements, one at a time, against the specifications of Recording.
// Outside a transaction each statement commits by itself, so besides its result every
// method says which contents a kill between two of its statements can leave.
module Recorder {
  import opened Tables
  import opened PathTree
  import opened Paths
  import opened Recording
  import opened Interrupted

  /** A connection between operations of the watch loop. */
  ghost predicate Idle(conn: Connection, interner: Interner)
    reads conn, interner
  {
    Ready(conn, interner) && !conn.inTransaction
  }

  /** `ensure_dir_chain` on a watch root. */
  method EnsureRoot(conn: Connection, interner: Interner, root: Path) returns (id: Option<FileId>)
    requires Idle(conn, interner)
    modifies conn, interner
    ensures Idle(conn, interner)
    ensures (conn.view.tree, id) == EnsureDirs(old(conn.view.tree), None, root) && conn.view.events == old(conn.view.events)
    ensures forall d :: d in conn.history ==> d in old(conn.history) || ChainPoint(old(conn.view), None, root, d)
  {
    NormaliseClean(root);
    ghost var history := conn.history;
    id := EnsureDirChain(conn, interner, Clean(root));
    forall d | d in conn.history ensures d in history || ChainPoint(old(conn.view), None, root, d) {
      assert d in history || d in conn.history - history;
    }
  }

  /** The root's chain, then the directories below it. */
  method EnterParentOf(conn: Connection, interner: Interner, root: Path, path: Path) returns (dir: Option<FileId>)
    requires Idle(conn, interner) && root <= path
    modifies conn, interner
    ensures Idle(conn, interner)
    ensures (conn.view.tree, dir) == EnterParent(old(conn.view.tree), root, path) && conn.view.events == old(conn.view.events)
    ensures forall d :: d in conn.history ==> d in old(conn.history) || EnterPoint(old(conn.view), root, path, d)
  {
    ghost var history := conn.history;
    var rootId := EnsureRoot(conn, interner, root);
    if rootId.None? {
      return None;
    }
    ghost var before, middle := conn.view, conn.history;
    dir := EnsureChainFrom(conn, interner, rootId, RelativeDirs(root, path));
    forall d | d in conn.history ensures d in history || EnterPoint(old(conn.view), root, path, d) {
      assert d in middle || d in conn.history - middle;
    }
  }

  method FindRow(t: Tree, start: Option<FileId>, path: Path) returns (id: Option<FileId>)
    ensures id == FindDirs(t, start, path)
  {
    id := start;
    for i := 0 to |path|
      invariant FindDirs(t, id, path[i..]) == FindDirs(t, start, path)
    {
      assert path[i..][0] == path[i] && path[i..][1..] == path[i + 1..];
      var c := LookupName(t.names, path[i]);
      if c.None? {
        return None;
      }
      id := Pick(t.files, id, c.value);
      if id.None? {
        return None;
      }
    }
  }

  method FindParent(conn: Connection, interner: Interner, root: Path, path: Path) returns (parent: Option<FileId>, ok: bool)
    requires Idle(conn, interner) && root <= path
    modifies conn, interner
    ensures Idle(conn, interner)
    ensures (conn.view.tree, parent, ok) == LookupParent(old(conn.view.tree), root, path)
    ensures conn.view.events == old(conn.view.events)
    ensures forall d :: d in conn.history ==> d in old(conn.history) || ChainPoint(old(conn.view), None, root, d)
  {
    var rootId := EnsureRoot(conn, interner, root);
    if rootId.None? {
      return None, false;
    }
    parent := FindRow(conn.view.tree, rootId, RelativeDirs(root, path));
    ok := true;
  }

  method FindFile(conn: Connection, interner: Interner, roots: seq<Path>, path: Path) returns (found: Lookup)
    requires Idle(conn, interner)
    modifies conn, interner
    ensures Idle(conn, interner)
    ensures (conn.view.tree, found) == LookupFile(old(conn.view.tree), roots, path)
    ensures found.Known? ==> found.id < |conn.view.tree.files|
    ensures conn.view.events == old(conn.view.events)
    ensures forall d :: d in conn.history ==> d in old(conn.history) || LookupPoint(old(conn.view), roots, path, d)
  {
    var owner := OwningRoot(roots, path);
    if owner.None? || path == [] {
      return Unknown;
    }
    var c := LookupName(conn.view.tree.names, path[|path| - 1]);
    if c.None? {
      return Unknown;
    }
    var parent, ok := FindParent(conn, interner, owner.value, path);
    if !ok {
      return NoRoot;
    }
    if parent.None? {
      return Unknown;
    }
    var row := Pick(conn.view.tree.files, parent, c.value);
    found := if row.None? then Unknown else Known(row.value, parent.value, c.value);
  }

  /** The shared tail of a removal and of a displacement: tombstone, then event. */
  method DeleteRow(conn: Connection, interner: Interner, id: FileId, at: int)
    requires Idle(conn, interner) && id < |conn.view.tree.files|
    modifies conn
    ensures Idle(conn, interner) && conn.view == Delete(old(conn.view), id, at)
    ensures forall d :: d in conn.history ==> d in old(conn.history) || DeletePoint(old(conn.view), id, at, d)
  {
    conn.Execute(Db(Tombstone(conn.view.tree, id, at), conn.view.events));
    conn.Execute(Db(conn.view.tree, conn.view.events + [NewEvent(id, Deleted, at, None)]));
  }

  method Removal(conn: Connection, interner: Interner, roots: seq<Path>, path: Path, at: int) returns (outcome: Outcome)
    requires Idle(conn, interner)
    modifies conn, interner
    ensures Idle(conn, interner)
    ensures (conn.view, outcome) == RecordRemoval(old(conn.view), roots, path, at)
    ensures forall d :: d in conn.history ==> d in old(conn.history) || RemovalPoint(old(conn.view), roots, path, at, d)
  {
    outcome := Recorded(None);
    var owner := OwningRoot(roots, path);
    if owner.None? || path == [] {
      return;
    }
    var c := LookupName(conn.view.tree.names, path[|path| - 1]);
    if c.None? {
      return;
    }
    var parent, ok := FindParent(conn, interner, owner.value, path);
    if !ok {
      return EmptyPath;
    }
    if parent.None? {
      return;
    }
    var id := LiveEntry(conn.view.tree.files, parent, c.value);
    if id.None? {
      return;
    }
    DeleteRow(conn, interner, id.value, at);
  }

  /** Intern the entry's name, look at what is there, upsert: the row and its change. */
  method RecordRow(conn: Connection, interner: Interner, dir: FileId, name: string, isDir: bool, size: Option<int>,
                   mtime: Option<int>)
    returns (id: FileId, kind: Option<EventKind>)
    requires Ready(conn, interner)
    modifies conn, interner
    ensures Ready(conn, interner) && conn.inTransaction == old(conn.inTransaction)
    ensures (conn.view.tree, id, kind) == RecordAt(old(conn.view.tree), dir, name, isDir, size, mtime)
    ensures conn.view.events == old(conn.view.events)
    ensures conn.inTransaction ==> conn.durable == old(conn.durable) && conn.history == old(conn.history)
    ensures !conn.inTransaction ==>
              conn.history == old(conn.history)
                + {Db(Intern(old(conn.view.tree), name).0, old(conn.view.events)), conn.view}
  {
    var component;
    if isDir {
      component := interner.InternDir(conn, name);
    } else {
      component := interner.InternLeaf(conn, name);
    }
    var live := LiveEntry(conn.view.tree.files, Some(dir), component);
    var previous := if live.Some? then Some(conn.view.tree.files[live.value]) else None;
    id := UpsertEntry(conn, Some(dir), component, isDir, size, mtime);
    kind := KindOf(isDir, previous, size, mtime);
  }

  /** `events::append` outside a transaction. */
  method Append(conn: Connection, interner: Interner, event: Event)
    requires Idle(conn, interner)
    modifies conn
    ensures Idle(conn, interner)
    ensures conn.view == Db(old(conn.view.tree), old(conn.view.events) + [event])
    ensures conn.history == old(conn.history) + {conn.view}
  {
    conn.Execute(Db(conn.view.tree, conn.view.events + [event]));
  }

  method PathSeen(conn: Connection, interner: Interner, roots: seq<Path>, path: Path, stat: Stat, at: int)
    returns (outcome: Outcome)
    requires Idle(conn, interner)
    modifies conn, interner
    ensures Idle(conn, interner)
    ensures (conn.view, outcome) == RecordPath(old(conn.view), roots, path, stat, at)
    ensures forall d :: d in conn.history ==> d in old(conn.history) || SeenPoint(old(conn.view), roots, path, stat, at, d)
  {
    outcome := Recorded(None);
    var owner := OwningRoot(roots, path);
    if owner.None? || stat.Denied? {
      return;
    }
    if stat.Missing? {
      outcome := Removal(conn, interner, roots, path, at);
      return;
    }
    var dir := EnterParentOf(conn, interner, owner.value, path);
    if dir.None? {
      return EmptyPath;
    }
    outcome := EntrySeen(conn, interner, dir.value, path[|path| - 1], stat, at);
  }

  /** The entry's row, then its event if it is a change. */
  method EntrySeen(conn: Connection, interner: Interner, dir: FileId, name: string, stat: Stat, at: int)
    returns (outcome: Outcome)
    requires Idle(conn, interner) && stat.Found?
    modifies conn, interner
    ensures Idle(conn, interner)
    ensures var size := SizeOf(stat.isDir, stat.len);
            var (t, id, kind) := RecordAt(old(conn.view.tree), dir, name, stat.isDir, size, stat.mtime);
            && outcome == Recorded(if kind.Some? then Some(id) else None)
            && conn.view == Logged(old(conn.view), t, id, kind, at, size)
            && forall d :: d in conn.history ==>
                 || d in old(conn.history) || d == conn.view
                 || RowPoint(old(conn.view), dir, name, stat.isDir, size, stat.mtime, d)
  {
    var size := SizeOf(stat.isDir, stat.len);
    var id, kind := RecordRow(conn, interner, dir, name, stat.isDir, size, stat.mtime);
    outcome := Recorded(None);
    if kind.Some? {
      Append(conn, interner, NewEvent(id, kind.value, at, size));
      outcome := Recorded(Some(id));
    }
  }

  method PathRenamed(conn: Connection, interner: Interner, roots: seq<Path>, from: Path, to: Path, stat: Stat, at: int)
    returns (outcome: Outcome)
    requires Idle(conn, interner)
    modifies conn, interner
    ensures Idle(conn, interner)
    ensures (conn.view, outcome) == RecordRename(old(conn.view), roots, from, to, stat, at)
    ensures forall d :: d in conn.history ==> d in old(conn.history) || RenamePoint(old(conn.view), roots, from, to, stat, at, d)
  {
    var owner := OwningRoot(roots, to);
    if owner.None? {
      outcome := Removal(conn, interner, roots, from, at);
      return;
    }
    var source := FindFile(conn, interner, roots, from);
    match source {
      case NoRoot => return EmptyPath;
      case Unknown =>
        outcome := PathSeen(conn, interner, roots, to, stat, at);
        return;
      case Known(_, _, _) =>
        outcome := KnownRenamed(conn, interner, roots, owner.value, source, to, stat, at);
    }
  }

  method KnownRenamed(conn: Connection, interner: Interner, roots: seq<Path>, root: Path, source: Lookup, to: Path, stat: Stat,
                      at: int)
    returns (outcome: Outcome)
    requires Idle(conn, interner) && source.Known? && OwningRoot(roots, to) == Some(root)
    modifies conn, interner
    ensures Idle(conn, interner)
    ensures (conn.view, outcome) == RenameKnown(old(conn.view), roots, root, source, to, stat, at)
    ensures forall d :: d in conn.history ==>
              d in old(conn.history) || KnownPoint(old(conn.view), roots, root, source, to, stat, at, d)
  {
    var dir, component, there := PrepareDestination(conn, interner, roots, root, to, stat.Found? && stat.isDir);
    if dir.None? {
      return EmptyPath;
    }
    FreeMoveAppend(conn, interner, RenamedEvent(source, stat, at), dir.value, component, there, at);
    outcome := Recorded(if stat.Found? && stat.isDir then None else Some(source.id));
  }

  method PrepareDestination(conn: Connection, interner: Interner, roots: seq<Path>, root: Path, to: Path, isDir: bool)
    returns (dir: Option<FileId>, component: ComponentId, there: Lookup)
    requires Idle(conn, interner) && root <= to
    modifies conn, interner
    ensures Idle(conn, interner)
    ensures (conn.view.tree, dir, component, there) == Destination(old(conn.view.tree), roots, root, to)
    ensures conn.view.events == old(conn.view.events)
    ensures there.Known? ==> there.id < |conn.view.tree.files|
    ensures forall d :: d in conn.history ==> d in old(conn.history) || DestinationPoint(old(conn.view), roots, root, to, d)
  {
    component, there := 0, Unknown;
    dir := EnterParentOf(conn, interner, root, to);
    if dir.Some? {
      component := InternName(conn, interner, to[|to| - 1], isDir);
      there := FindFile(conn, interner, roots, to);
    }
  }

  /** Tombstone what is at the destination, move the row there, log it. */
  method FreeMoveAppend(conn: Connection, interner: Interner, renamed: Event, dir: FileId, component: ComponentId,
                        there: Lookup, at: int)
    requires Idle(conn, interner)
    requires there.Known? ==> there.id < |conn.view.tree.files|
    modifies conn
    ensures Idle(conn, interner)
    ensures conn.view == FreeMoveLog(old(conn.view), renamed, dir, component, there, at)
    ensures forall d :: d in conn.history ==>
              d in old(conn.history) || MovePoint(old(conn.view), renamed, dir, component, there, at, d)
  {
    var id := renamed.fileId;
    if there.Known? && there.id != id {
      DeleteRow(conn, interner, there.id, at);
    }
    if id < |conn.view.tree.files| {
      conn.Execute(Db(Move(conn.view.tree, id, dir, component), conn.view.events));
    }
    assert (conn.view.events + [renamed])[..|conn.view.events|] == conn.view.events;
    Append(conn, interner, renamed);
  }

  method InternName(conn: Connection, interner: Interner, name: string, isDir: bool) returns (component: ComponentId)
    requires Idle(conn, interner)
    modifies conn, interner
    ensures Idle(conn, interner)
    ensures (conn.view.tree, component) == Intern(old(conn.view.tree), name) && conn.view.events == old(conn.view.events)
    ensures conn.history == old(conn.history) + {conn.view}
  {
    if isDir {
      component := interner.InternDir(conn, name);
    } else {
      component := interner.InternLeaf(conn, name);
    }
  }
}
