// The observer thread: reported changes and live commands, one after the other, and what
// each does to the store, the root list and the extraction queue.
module Observer {
  import opened Tables
  import opened PathTree
  import opened Paths
  import opened Recording
  import opened Renaming
  import opened Departure
  import opened Scan
  import opened Scanner
  import opened Interrupted
  import opened Recorder
  import opened Exclusion
  import opened Extraction
  import Watch
  import StoreRuns

  // ------------------------------------------------------- specification

  /** What each root's walk would yield; a root without one does not exist. */
  type Walks = map<Path, seq<Item>>

  function ScanIfThere(db: Db, root: Path, walks: Walks): Db {
    if root in walks && root != [] then FullScan(db, root, walks[root]) else db
  }

  function Rescan(db: Db, roots: seq<Path>, walks: Walks): Db {
    if roots == [] then db
    else ScanIfThere(Rescan(db, roots[..|roots| - 1], walks), roots[|roots| - 1], walks)
  }

  /** The file to extract; a store error is only logged. */
  function ToExtract(outcome: Outcome): Option<FileId> {
    if outcome.Recorded? then outcome.id else None
  }

  /** `apply_change`: the store after it, and the file it queues for extraction. */
  function Applied(db: Db, roots: seq<Path>, skip: seq<string>, change: Watch.Change, stat: Stat, walks: Walks, at: int)
    : (Db, Option<FileId>)
  {
    match change
    case Overflowed => (Rescan(db, roots, walks), None)
    case Touched(path) => if Excluded(path, skip) then (db, None) else Arrived(db, roots, path, stat, at)
    case Removed(path) => if Excluded(path, skip) then (db, None) else (RecordRemoval(db, roots, path, at).0, None)
    case Renamed(from, to) =>
      if Excluded(from, skip) && Excluded(to, skip) then (db, None)
      else if Excluded(from, skip) then Arrived(db, roots, to, stat, at)
      else if Excluded(to, skip) then (RecordRemoval(db, roots, from, at).0, None)
      else
        var (after, outcome) := RecordRename(db, roots, from, to, stat, at);
        (after, ToExtract(outcome))
  }

  function Arrived(db: Db, roots: seq<Path>, path: Path, stat: Stat, at: int): (Db, Option<FileId>) {
    var (after, outcome) := RecordPath(db, roots, path, stat, at);
    (after, ToExtract(outcome))
  }

  /** `add_one`: ignored if listed already; else scanned, and listed only if both the scan
      and the watch on it succeed. */
  function Added(db: Db, roots: seq<Path>, root: Path, walks: Walks, watchable: set<Path>): (Db, seq<Path>) {
    if root in roots then (db, roots)
    else (ScanIfThere(db, root, walks), if Usable(root, walks, watchable) then roots + [root] else roots)
  }

  predicate Usable(root: Path, walks: Walks, watchable: set<Path>) {
    root in walks && root != [] && root in watchable
  }

  function AllAdded(db: Db, roots: seq<Path>, more: seq<Path>, walks: Walks, watchable: set<Path>): (Db, seq<Path>) {
    if more == [] then (db, roots)
    else
      var (d, r) := AllAdded(db, roots, more[..|more| - 1], walks, watchable);
      Added(d, r, more[|more| - 1], walks, watchable)
  }

  // ----------------------------------------------------------- interrupted

  /** What a kill during a rescan of all roots can leave. */
  ghost predicate RescanPoint(db: Db, roots: seq<Path>, walks: Walks, d: Db) {
    exists i :: 0 <= i < |roots| && ScanOnePoint(Rescan(db, roots[..i], walks), roots[i], walks, d)
  }

  ghost predicate ScanOnePoint(db: Db, root: Path, walks: Walks, d: Db) {
    root in walks && root != [] && ScanPoint(db, root, walks[root], d)
  }

  /** ... during a reported change. */
  ghost predicate ChangePoint(db: Db, roots: seq<Path>, skip: seq<string>, change: Watch.Change, stat: Stat, walks: Walks,
                              at: int, d: Db)
  {
    match change
    case Overflowed => RescanPoint(db, roots, walks, d)
    case Touched(path) => !Excluded(path, skip) && SeenPoint(db, roots, path, stat, at, d)
    case Removed(path) => !Excluded(path, skip) && RemovalPoint(db, roots, path, at, d)
    case Renamed(from, to) =>
      if Excluded(from, skip) then !Excluded(to, skip) && SeenPoint(db, roots, to, stat, at, d)
      else if Excluded(to, skip) then RemovalPoint(db, roots, from, at, d)
      else RenamePoint(db, roots, from, to, stat, at, d)
  }

  /** ... during a command. */
  ghost predicate CommandPoint(db: Db, roots: seq<Path>, more: seq<Path>, walks: Walks, watchable: set<Path>, d: Db) {
    exists i :: 0 <= i < |more| && ScanOnePoint(AllAdded(db, roots, more[..i], walks, watchable).0, more[i], walks, d)
  }

  // ------------------------------------------------------------ the thread

  lemma {:induction false} NoLimit(items: seq<Item>, i: nat)
    requires i <= |items|
    ensures Admitted(items, None, i) == |items|
    decreases |items| - i
  {
    if i < |items| {
      NoLimit(items, i + 1);
    }
  }

  ghost predicate AllSound(history: set<Db>) {
    forall d :: d in history ==> Sound(d)
  }

  class Thread {
    const conn: Connection
    var interner: Interner
    const extraction: Queue
    const skip: seq<string>
    var roots: seq<Path>

    ghost predicate Valid()
      reads this, conn, interner
    {
      Idle(conn, interner)
    }

    constructor (conn: Connection, interner: Interner, extraction: Queue, skip: seq<string>, roots: seq<Path>)
      requires Idle(conn, interner)
      ensures Valid() && this.conn == conn && this.interner == interner && this.extraction == extraction
      ensures this.skip == skip && this.roots == roots
    {
      this.conn, this.interner, this.extraction, this.skip, this.roots := conn, interner, extraction, skip, roots;
    }

    /** Apply one reported change; `now` is the queue's clock. */
    method ApplyChange(change: Watch.Change, stat: Stat, walks: Walks, at: int, now: int)
      requires Valid()
      modifies conn, interner, extraction
      ensures Valid() && roots == old(roots)
      ensures conn.view == Applied(old(conn.view), roots, skip, change, stat, walks, at).0
      ensures var queued := Applied(old(conn.view), roots, skip, change, stat, walks, at).1;
              extraction.State() ==
                if queued.Some? then Enqueued(old(extraction.State()), queued.value, now) else old(extraction.State())
      ensures forall d :: d in conn.history ==>
                d in old(conn.history) || ChangePoint(old(conn.view), roots, skip, change, stat, walks, at, d)
    {
      var outcome := Recorded(None);
      match change {
        case Overflowed =>
          RescanAll(walks);
        case Touched(path) =>
          if !Excluded(path, skip) {
            outcome := PathSeen(conn, interner, roots, path, stat, at);
          }
        case Removed(path) =>
          if !Excluded(path, skip) {
            var _ := Removal(conn, interner, roots, path, at);
          }
        case Renamed(from, to) =>
          outcome := ApplyRename(from, to, stat, walks, at);
      }
      if ToExtract(outcome).Some? {
        extraction.Enqueue(ToExtract(outcome).value, now);
      }
    }

    method ApplyRename(from: Path, to: Path, stat: Stat, ghost walks: Walks, at: int) returns (outcome: Outcome)
      requires Valid()
      modifies conn, interner
      ensures Valid() && roots == old(roots)
      ensures (conn.view, ToExtract(outcome))
           == Applied(old(conn.view), roots, skip, Watch.Change.Renamed(from, to), stat, walks, at)
      ensures forall d :: d in conn.history ==>
                d in old(conn.history) || ChangePoint(old(conn.view), roots, skip, Watch.Change.Renamed(from, to), stat, walks, at, d)
    {
      outcome := Recorded(None);
      if Excluded(from, skip) && !Excluded(to, skip) {
        outcome := PathSeen(conn, interner, roots, to, stat, at);
      } else if !Excluded(from, skip) && Excluded(to, skip) {
        var _ := Removal(conn, interner, roots, from, at);
      } else if !Excluded(from, skip) {
        outcome := PathRenamed(conn, interner, roots, from, to, stat, at);
      }
    }

    /** Scan one root without an entry limit. */
    method ScanOne(root: Path, walks: Walks) returns (ok: bool)
      requires Valid()
      modifies conn, interner
      ensures Valid() && roots == old(roots)
      ensures conn.view == ScanIfThere(old(conn.view), root, walks) && ok == (root in walks && root != [])
      ensures forall d :: d in conn.history ==> d in old(conn.history) || ScanOnePoint(old(conn.view), root, walks, d)
    {
      var items := if root in walks then walks[root] else [];
      NoLimit(items, 0);
      assert items[..|items|] == items;
      ghost var history := conn.history;
      var result := ScanRoot(conn, interner, root, root in walks, items, None);
      ok := result.Scanned?;
      assert forall d :: d in conn.history ==> d in history || d in conn.history - history;
    }

    method RescanAll(walks: Walks)
      requires Valid()
      modifies conn, interner
      ensures Valid() && roots == old(roots)
      ensures conn.view == Rescan(old(conn.view), roots, walks)
      ensures forall d :: d in conn.history ==> d in old(conn.history) || RescanPoint(old(conn.view), roots, walks, d)
    {
      assert roots[..0] == [];
      for i := 0 to |roots|
        invariant Valid() && roots == old(roots)
        invariant conn.view == Rescan(old(conn.view), roots[..i], walks)
        invariant forall d :: d in conn.history ==> d in old(conn.history) || RescanPoint(old(conn.view), roots, walks, d)
      {
        assert roots[..i + 1][..i] == roots[..i];
        var _ := ScanOne(roots[i], walks);
      }
      assert roots[..|roots|] == roots;
    }

    /** The process dies, whatever it was doing, and starts again with these roots and an
        empty cache. */
    method Restart(roots: seq<Path>)
      requires conn.Valid() && AllSound(conn.history)
      modifies this, conn
      ensures Valid() && this.roots == roots && fresh(interner)
      ensures conn.view == old(conn.durable) && conn.view in old(conn.history) && Sound(conn.view)
    {
      conn.Kill();
      assert Sound(conn.view);
      interner := new Interner();
      this.roots := roots;
    }

    /** A live command: the old roots go first if they are replaced. It fails exactly when
        some root is neither listed nor usable; the usable ones are listed even so. */
    method ApplyCommand(more: seq<Path>, replacing: bool, walks: Walks, watchable: set<Path>) returns (ok: bool)
      requires Valid()
      modifies this`roots, conn, interner
      ensures Valid()
      ensures (conn.view, roots) == AllAdded(old(conn.view), if replacing then [] else old(roots), more, walks, watchable)
      ensures ok <==> forall r :: r in more ==> r in roots
      ensures forall r :: r in roots <==>
                (r in old(roots) && !replacing) || (r in more && r in walks && r != [] && r in watchable)
      ensures forall d :: d in conn.history ==>
                d in old(conn.history) || CommandPoint(old(conn.view), if replacing then [] else old(roots), more, walks, watchable, d)
    {
      if replacing {
        roots := [];
      }
      ghost var start := roots;
      ok := true;
      assert more[..0] == [];
      for i := 0 to |more|
        invariant Valid()
        invariant (conn.view, roots) == AllAdded(old(conn.view), start, more[..i], walks, watchable)
        invariant ok <==> forall r :: r in more[..i] ==> r in start || Usable(r, walks, watchable)
        invariant forall r :: r in roots <==> r in start || (r in more[..i] && Usable(r, walks, watchable))
        invariant forall d :: d in conn.history ==>
                    d in old(conn.history) || CommandPoint(old(conn.view), start, more, walks, watchable, d)
      {
        AddedOneMore(old(conn.view), start, more, i, walks, watchable);
        var added := AddOne(more[i], walks, watchable);
        ok := ok && added;
      }
      assert more[..|more|] == more;
    }

    method AddOne(root: Path, walks: Walks, watchable: set<Path>) returns (ok: bool)
      requires Valid()
      modifies this`roots, conn, interner
      ensures Valid()
      ensures (conn.view, roots) == Added(old(conn.view), old(roots), root, walks, watchable)
      ensures ok <==> root in old(roots) || Usable(root, walks, watchable)
      ensures forall d :: d in conn.history ==> d in old(conn.history) || ScanOnePoint(old(conn.view), root, walks, d)
    {
      if root in roots {
        return true;
      }
      ok := ScanOne(root, walks);
      if !ok || root !in watchable {
        return false;
      }
      roots := roots + [root];
    }
  }

  lemma AddedOneMore(db: Db, roots: seq<Path>, more: seq<Path>, i: nat, walks: Walks, watchable: set<Path>)
    requires i < |more|
    ensures var (d, r) := AllAdded(db, roots, more[..i], walks, watchable);
            AllAdded(db, roots, more[..i + 1], walks, watchable) == Added(d, r, more[i], walks, watchable)
    ensures forall r :: r in more[..i + 1] <==> r in more[..i] || r == more[i]
  {
    assert more[..i + 1][..i] == more[..i];
    assert more[..i + 1] == more[..i] + [more[i]];
  }

  // ----------------------------------------------------------- whole runs

  /** No root is the filesystem root, and a rename that is recorded as one is between
      places inside their roots, the destination not below the source. */
  ghost predicate Fair(roots: seq<Path>, skip: seq<string>, change: Watch.Change) {
    && [] !in roots
    && (change.Renamed? && !Excluded(change.from, skip) && !Excluded(change.to, skip) ==>
          Movable(roots, change.from, change.to))
  }

  /** The path tree with its log, the roots, and the extraction queue with its results. */
  datatype State = State(db: Db, roots: seq<Path>, store: Store)

  /** `Started` is the requeue at startup, of results older than the extractor's version and
      of live files without one. */
  datatype Input =
    | Reported(change: Watch.Change, stat: Stat, walks: Walks, at: int, now: int)
    | Command(more: seq<Path>, replacing: bool, walks: Walks, watchable: set<Path>)
    | Started(walks: Walks, version: nat, now: int, live: set<FileId>)

  function After(s: State, skip: seq<string>, input: Input): State {
    match input
    case Reported(change, stat, walks, at, now) =>
      var (db, queued) := Applied(s.db, s.roots, skip, change, stat, walks, at);
      State(db, s.roots, if queued.Some? then Enqueued(s.store, queued.value, now) else s.store)
    case Command(more, replacing, walks, watchable) =>
      var (db, roots) := AllAdded(s.db, if replacing then [] else s.roots, more, walks, watchable);
      State(db, roots, s.store)
    case Started(_, version, now, live) => s.(store := Requeued(s.store, version, now, live))
  }

  /** Walks prune excluded directories, and nobody watches a root inside one. */
  ghost predicate Possible(s: State, skip: seq<string>, input: Input) {
    && (forall root :: root in input.walks ==> AllPruned(input.walks[root], skip))
    && (input.Reported? ==> Fair(s.roots, skip, input.change))
    && (input.Command? ==> forall i :: 0 <= i < |input.more| ==> !Excluded(input.more[i], skip))
  }

  /** A content the file can have while the input is dealt with. */
  ghost predicate InputPoint(s: State, skip: seq<string>, input: Input, d: Db) {
    || d == s.db
    || match input
       case Reported(change, stat, walks, at, _) => ChangePoint(s.db, s.roots, skip, change, stat, walks, at, d)
       case Command(more, replacing, walks, watchable) =>
         CommandPoint(s.db, if replacing then [] else s.roots, more, walks, watchable, d)
       case Started(_, _, _, _) => false
  }

  /** The input is dealt with; or the process is killed at it, the queue not yet written,
      and started again with any proper roots. */
  ghost predicate Next(s: State, skip: seq<string>, input: Input, t: State) {
    t == After(s, skip, input) || Killed(s, skip, input, t)
  }

  ghost predicate Killed(s: State, skip: seq<string>, input: Input, t: State) {
    InputPoint(s, skip, input, t.db) && ProperRoots(t.roots, skip) && t.store == s.store
  }

  ghost predicate Run(states: seq<State>, skip: seq<string>, inputs: seq<Input>) {
    && |states| == |inputs| + 1
    && forall k :: 0 <= k < |inputs| ==>
         Possible(states[k], skip, inputs[k]) && Next(states[k], skip, inputs[k], states[k + 1])
  }

  /** A sound store, nothing in it below an excluded directory, and proper, distinct roots. */
  ghost predicate Kept(s: State, skip: seq<string>) {
    KeptDb(s.db, s.roots, skip)
  }

  ghost predicate KeptDb(db: Db, roots: seq<Path>, skip: seq<string>) {
    && Sound(db) && NothingBelowExcluded(db.tree, skip) && ProperRoots(roots, skip)
  }

  ghost predicate ProperRoots(roots: seq<Path>, skip: seq<string>) {
    && [] !in roots
    && (forall i :: 0 <= i < |roots| ==> !Excluded(roots[i], skip))
    && (forall i, j :: 0 <= i < j < |roots| ==> roots[i] != roots[j])
  }

  lemma ScanKeeps(db: Db, skip: seq<string>, root: Path, walks: Walks)
    requires Sound(db) && NothingBelowExcluded(db.tree, skip) && !Excluded(root, skip)
    requires forall r :: r in walks ==> AllPruned(walks[r], skip)
    ensures var after := ScanIfThere(db, root, walks);
            Sound(after) && NothingBelowExcluded(after.tree, skip) && db.events <= after.events
  {
    if root in walks && root != [] {
      ScanVisible(db, skip, root, walks[root]);
      EnteredSound(db, root);
      WalkSound(Entered(db, root).0, Entered(db, root).1, root, walks[root]);
      WalkAppends(Entered(db, root).0, Entered(db, root).1, walks[root]);
    }
  }

  lemma {:induction false} RescanKeeps(db: Db, skip: seq<string>, roots: seq<Path>, walks: Walks)
    requires Sound(db) && NothingBelowExcluded(db.tree, skip)
    requires forall i :: 0 <= i < |roots| ==> !Excluded(roots[i], skip)
    requires forall r :: r in walks ==> AllPruned(walks[r], skip)
    ensures var after := Rescan(db, roots, walks);
            Sound(after) && NothingBelowExcluded(after.tree, skip) && db.events <= after.events
  {
    if roots != [] {
      RescanKeeps(db, skip, roots[..|roots| - 1], walks);
      ScanKeeps(Rescan(db, roots[..|roots| - 1], walks), skip, roots[|roots| - 1], walks);
    }
  }

  lemma {:induction false} CommandKeeps(db: Db, skip: seq<string>, roots: seq<Path>, more: seq<Path>, walks: Walks, watchable: set<Path>)
    requires KeptDb(db, roots, skip)
    requires forall i :: 0 <= i < |more| ==> !Excluded(more[i], skip)
    requires forall r :: r in walks ==> AllPruned(walks[r], skip)
    ensures var (after, list) := AllAdded(db, roots, more, walks, watchable);
            KeptDb(after, list, skip) && db.events <= after.events
  {
    if more != [] {
      var init, root := more[..|more| - 1], more[|more| - 1];
      CommandKeeps(db, skip, roots, init, walks, watchable);
      ScanKeeps(AllAdded(db, roots, init, walks, watchable).0, skip, root, walks);
    }
  }

  lemma ChangeKeeps(db: Db, roots: seq<Path>, skip: seq<string>, change: Watch.Change, stat: Stat, walks: Walks, at: int)
    requires Sound(db) && NothingBelowExcluded(db.tree, skip) && ProperRoots(roots, skip) && Fair(roots, skip, change)
    requires forall r :: r in walks ==> AllPruned(walks[r], skip)
    ensures var after := Applied(db, roots, skip, change, stat, walks, at).0;
            Sound(after) && NothingBelowExcluded(after.tree, skip) && db.events <= after.events
  {
    match change
    case Overflowed => RescanKeeps(db, skip, roots, walks);
    case Touched(path) => if !Excluded(path, skip) { ArrivalKeeps(db, skip, roots, path, stat, at); }
    case Removed(path) => if !Excluded(path, skip) { DepartureKeeps(db, skip, roots, path, at); }
    case Renamed(from, to) =>
      if Excluded(from, skip) && !Excluded(to, skip) {
        ArrivalKeeps(db, skip, roots, to, stat, at);
      } else if !Excluded(from, skip) && Excluded(to, skip) {
        DepartureKeeps(db, skip, roots, from, at);
      } else if !Excluded(from, skip) {
        RenameSound(db, roots, from, to, stat, at);
        RenameVisible(db, skip, roots, from, to, stat, at);
        StoreRuns.RenameGrows(db, roots, from, to, stat, at);
      }
  }

  lemma ArrivalKeeps(db: Db, skip: seq<string>, roots: seq<Path>, path: Path, stat: Stat, at: int)
    requires Sound(db) && NothingBelowExcluded(db.tree, skip) && [] !in roots && !Excluded(path, skip)
    ensures var after := RecordPath(db, roots, path, stat, at).0;
            Sound(after) && NothingBelowExcluded(after.tree, skip) && db.events <= after.events
  {
    PathSound(db, roots, path, stat, at);
    PathVisible(db, skip, roots, path, stat, at);
    StoreRuns.PathLog(db, roots, path, stat, at);
  }

  lemma DepartureKeeps(db: Db, skip: seq<string>, roots: seq<Path>, path: Path, at: int)
    requires Sound(db) && NothingBelowExcluded(db.tree, skip) && [] !in roots && !Excluded(path, skip)
    ensures var after := RecordRemoval(db, roots, path, at).0;
            Sound(after) && NothingBelowExcluded(after.tree, skip) && db.events <= after.events
  {
    RemovalSound(db, roots, path, at);
    RemovalVisible(db, skip, roots, path, at);
    StoreRuns.RemovalLog(db, roots, path, at);
  }

  lemma ScanOneKilled(db: Db, skip: seq<string>, root: Path, walks: Walks, d: Db)
    requires Sound(db) && NothingBelowExcluded(db.tree, skip) && !Excluded(root, skip)
    requires forall r :: r in walks ==> AllPruned(walks[r], skip)
    requires ScanOnePoint(db, root, walks, d)
    ensures Sound(d) && NothingBelowExcluded(d.tree, skip) && db.events <= d.events
  {
    KilledScanSound(db, root, walks[root], d);
    ScanPointVisible(db, skip, root, walks[root], d);
  }

  lemma ChangeKilled(db: Db, roots: seq<Path>, skip: seq<string>, change: Watch.Change, stat: Stat, walks: Walks, at: int, d: Db)
    requires Sound(db) && NothingBelowExcluded(db.tree, skip) && ProperRoots(roots, skip) && Fair(roots, skip, change)
    requires forall r :: r in walks ==> AllPruned(walks[r], skip)
    requires ChangePoint(db, roots, skip, change, stat, walks, at, d)
    ensures Sound(d) && NothingBelowExcluded(d.tree, skip) && db.events <= d.events
  {
    match change
    case Overflowed =>
      var i :| 0 <= i < |roots| && ScanOnePoint(Rescan(db, roots[..i], walks), roots[i], walks, d);
      RescanKeeps(db, skip, roots[..i], walks);
      ScanOneKilled(Rescan(db, roots[..i], walks), skip, roots[i], walks, d);
    case Touched(path) => SeenKilled(db, skip, roots, path, stat, at, d);
    case Removed(path) => RemovalKilled(db, skip, roots, path, at, d);
    case Renamed(from, to) =>
      if Excluded(from, skip) {
        SeenKilled(db, skip, roots, to, stat, at, d);
      } else if Excluded(to, skip) {
        RemovalKilled(db, skip, roots, from, at, d);
      } else {
        RenameSurvives(db, roots, from, to, stat, at, d);
        RenamePointVisible(db, skip, roots, from, to, stat, at, d);
      }
  }

  lemma SeenKilled(db: Db, skip: seq<string>, roots: seq<Path>, path: Path, stat: Stat, at: int, d: Db)
    requires Sound(db) && NothingBelowExcluded(db.tree, skip) && [] !in roots && !Excluded(path, skip)
    requires SeenPoint(db, roots, path, stat, at, d)
    ensures Sound(d) && NothingBelowExcluded(d.tree, skip) && db.events <= d.events
  {
    SeenSurvives(db, roots, path, stat, at, d);
    SeenPointVisible(db, skip, roots, path, stat, at, d);
  }

  lemma RemovalKilled(db: Db, skip: seq<string>, roots: seq<Path>, path: Path, at: int, d: Db)
    requires Sound(db) && NothingBelowExcluded(db.tree, skip) && [] !in roots && !Excluded(path, skip)
    requires RemovalPoint(db, roots, path, at, d)
    ensures Sound(d) && NothingBelowExcluded(d.tree, skip) && db.events <= d.events
  {
    RemovalSurvives(db, roots, path, at, d);
    RemovalPointVisible(db, skip, roots, path, at, d);
  }

  lemma CommandKilled(db: Db, skip: seq<string>, roots: seq<Path>, more: seq<Path>, walks: Walks, watchable: set<Path>, d: Db)
    requires KeptDb(db, roots, skip) && forall i :: 0 <= i < |more| ==> !Excluded(more[i], skip)
    requires forall r :: r in walks ==> AllPruned(walks[r], skip)
    requires CommandPoint(db, roots, more, walks, watchable, d)
    ensures Sound(d) && NothingBelowExcluded(d.tree, skip) && db.events <= d.events
  {
    var i :| 0 <= i < |more| && ScanOnePoint(AllAdded(db, roots, more[..i], walks, watchable).0, more[i], walks, d);
    CommandKeeps(db, skip, roots, more[..i], walks, watchable);
    ScanOneKilled(AllAdded(db, roots, more[..i], walks, watchable).0, skip, more[i], walks, d);
  }

  lemma NextKeeps(s: State, skip: seq<string>, input: Input, t: State)
    requires Kept(s, skip) && Possible(s, skip, input) && Next(s, skip, input, t)
    ensures Kept(t, skip) && s.db.events <= t.db.events
  {
    match input
    case Reported(change, stat, walks, at, _) =>
      if t == After(s, skip, input) {
        ChangeKeeps(s.db, s.roots, skip, change, stat, walks, at);
      } else if t.db != s.db {
        ChangeKilled(s.db, s.roots, skip, change, stat, walks, at, t.db);
      }
    case Command(more, replacing, walks, watchable) =>
      var roots := if replacing then [] else s.roots;
      if t == After(s, skip, input) {
        CommandKeeps(s.db, skip, roots, more, walks, watchable);
      } else if t.db != s.db {
        CommandKilled(s.db, skip, roots, more, walks, watchable, t.db);
      }
    case Started(_, _, _, _) =>
  }

  /** Over every run of the thread, killed at any statement and restarted any number of
      times: the store stays sound and its history append-only, no path of it ever goes
      through an excluded directory, and no root is listed twice. */
  lemma {:induction false} RunKeeps(states: seq<State>, skip: seq<string>, inputs: seq<Input>, k: nat)
    requires Run(states, skip, inputs) && k < |states| && Kept(states[0], skip)
    ensures Kept(states[k], skip) && states[0].db.events <= states[k].db.events
    ensures forall id: FileId, path :: HasPath(states[k].db.tree, id, path) ==> !Excluded(path[..|path| - 1], skip)
  {
    if k > 0 {
      RunKeeps(states, skip, inputs, k - 1);
      assert Possible(states[k - 1], skip, inputs[k - 1]);
      NextKeeps(states[k - 1], skip, inputs[k - 1], states[k]);
    }
    forall id: FileId, path | HasPath(states[k].db.tree, id, path) ensures !Excluded(path[..|path| - 1], skip) {
      StoredPathsVisible(states[k].db.tree, skip, id, path);
    }
  }

  // ----------------------------------------------------- news and the queue

  /** A change of a file's content or place: what the extraction queue is fed from. */
  predicate IsNews(e: Event, stat: Stat) {
    e.kind != Deleted && !(e.kind == EventKind.Renamed && stat.Found? && stat.isDir)
  }

  /** The file queued is the one the log's last new event is news of; without one, no new
      event is news. */
  ghost predicate QueuesNews(before: seq<Event>, after: seq<Event>, queued: Option<FileId>, stat: Stat) {
    && before <= after
    && (queued.Some? ==>
          |before| < |after| && after[|after| - 1].fileId == queued.value && IsNews(after[|after| - 1], stat))
    && (forall i :: |before| <= i < |after| && IsNews(after[i], stat) ==> queued == Some(after[i].fileId))
  }

  lemma PathQueuesNews(db: Db, roots: seq<Path>, path: Path, stat: Stat, at: int)
    requires Sound(db) && [] !in roots
    ensures var (after, outcome) := RecordPath(db, roots, path, stat, at);
            QueuesNews(db.events, after.events, ToExtract(outcome), stat)
  {
    PathSound(db, roots, path, stat, at);
    StoreRuns.PathLog(db, roots, path, stat, at);
    RemovalSound(db, roots, path, at);
  }

  lemma RenameQueuesNews(db: Db, roots: seq<Path>, from: Path, to: Path, stat: Stat, at: int)
    requires Sound(db) && Movable(roots, from, to)
    ensures var (after, outcome) := RecordRename(db, roots, from, to, stat, at);
            QueuesNews(db.events, after.events, ToExtract(outcome), stat)
  {
    if OwningRoot(roots, to).None? {
      StoreRuns.RemovalLog(db, roots, from, at);
      RemovalSound(db, roots, from, at);
    } else {
      LookupFileFacts(db.tree, roots, from);
      var (t0, source) := LookupFile(db.tree, roots, from);
      if source.Unknown? {
        PathQueuesNews(Db(t0, db.events), roots, to, stat, at);
      } else {
        KnownQueuesNews(Db(t0, db.events), roots, source, to, stat, at);
      }
    }
  }

  lemma KnownQueuesNews(db: Db, roots: seq<Path>, source: Lookup, to: Path, stat: Stat, at: int)
    requires source.Known? && Inside(roots, to)
    ensures var (after, outcome) := RenameKnown(db, roots, OwningRoot(roots, to).value, source, to, stat, at);
            QueuesNews(db.events, after.events, ToExtract(outcome), stat)
  {
    var (u, dir, c, there) := Destination(db.tree, roots, OwningRoot(roots, to).value, to);
    var renamed := RenamedEvent(source, stat, at);
    var deleted := if there.Known? && there.id != source.id then [NewEvent(there.id, Deleted, at, None)] else [];
    var after := FreeMoveLog(Db(u, db.events), renamed, dir.value, c, there, at);
    assert db.events + [] == db.events;
    assert after.events == db.events + deleted + [renamed];
    LastIsNews(db.events, deleted, renamed, stat);
  }

  lemma LastIsNews(before: seq<Event>, deleted: seq<Event>, last: Event, stat: Stat)
    requires forall e :: e in deleted ==> e.kind == Deleted
    ensures QueuesNews(before, before + deleted + [last], if IsNews(last, stat) then Some(last.fileId) else None, stat)
  {
    var after := before + deleted + [last];
    forall i | |before| <= i < |after| - 1 ensures after[i].kind == Deleted {
      assert after[i] == deleted[i - |before|];
    }
  }

  /** Whatever is reported, short of an overflow, a file is queued for extraction exactly
      when the change logs news of it. */
  lemma NewsIsQueued(db: Db, roots: seq<Path>, skip: seq<string>, change: Watch.Change, stat: Stat, walks: Walks, at: int)
    requires Sound(db) && Fair(roots, skip, change) && !change.Overflowed?
    ensures var (after, queued) := Applied(db, roots, skip, change, stat, walks, at);
            QueuesNews(db.events, after.events, queued, stat)
  {
    match change
    case Touched(path) => PathQueuesNews(db, roots, path, stat, at);
    case Removed(path) => RemovalNoNews(db, roots, path, stat, at);
    case Renamed(from, to) =>
      if Excluded(from, skip) {
        PathQueuesNews(db, roots, to, stat, at);
      } else if Excluded(to, skip) {
        RemovalNoNews(db, roots, from, stat, at);
      } else {
        RenameQueuesNews(db, roots, from, to, stat, at);
      }
  }

  lemma RemovalNoNews(db: Db, roots: seq<Path>, path: Path, stat: Stat, at: int)
    requires Sound(db) && [] !in roots
    ensures QueuesNews(db.events, RecordRemoval(db, roots, path, at).0.events, None, stat)
  {
    StoreRuns.RemovalLog(db, roots, path, at);
  }

  /** The queue is written after the log: the process killed between the two leaves the news
      logged and the file not queued. */
  lemma KilledBeforeQueue(s: State, skip: seq<string>, input: Input)
    requires Possible(s, skip, input) && input.Reported? && Kept(s, skip)
    requires Applied(s.db, s.roots, skip, input.change, input.stat, input.walks, input.at).1.Some?
    ensures var (db, queued) := Applied(s.db, s.roots, skip, input.change, input.stat, input.walks, input.at);
            Next(s, skip, input, State(db, s.roots, s.store)) && QueuesNews(s.db.events, db.events, queued, input.stat)
  {
    NewsIsQueued(s.db, s.roots, skip, input.change, input.stat, input.walks, input.at);
    CompletedIsPoint(s.db, s.roots, skip, input.change, input.stat, input.walks, input.at);
    var t := State(Applied(s.db, s.roots, skip, input.change, input.stat, input.walks, input.at).0, s.roots, s.store);
    assert InputPoint(s, skip, input, t.db);
    assert Killed(s, skip, input, t);
  }

  /** What a completed change leaves is among the contents of a kill, if it queues anything. */
  lemma CompletedIsPoint(db: Db, roots: seq<Path>, skip: seq<string>, change: Watch.Change, stat: Stat, walks: Walks, at: int)
    requires Sound(db) && Fair(roots, skip, change)
    requires Applied(db, roots, skip, change, stat, walks, at).1.Some?
    ensures ChangePoint(db, roots, skip, change, stat, walks, at, Applied(db, roots, skip, change, stat, walks, at).0)
  {
    match change
    case Touched(path) => SeenIsPoint(db, roots, path, stat, at);
    case Renamed(from, to) =>
      if Excluded(from, skip) {
        SeenIsPoint(db, roots, to, stat, at);
      } else {
        RenamedIsPoint(db, roots, from, to, stat, at);
      }
  }

  lemma SeenIsPoint(db: Db, roots: seq<Path>, path: Path, stat: Stat, at: int)
    requires Sound(db) && [] !in roots && ToExtract(RecordPath(db, roots, path, stat, at).1).Some?
    ensures SeenPoint(db, roots, path, stat, at, RecordPath(db, roots, path, stat, at).0)
  {
    if OwningRoot(roots, path).Some? && stat.Missing? {
      RemovalSound(db, roots, path, at);
    }
  }

  lemma RenamedIsPoint(db: Db, roots: seq<Path>, from: Path, to: Path, stat: Stat, at: int)
    requires Sound(db) && Movable(roots, from, to) && ToExtract(RecordRename(db, roots, from, to, stat, at).1).Some?
    ensures RenamePoint(db, roots, from, to, stat, at, RecordRename(db, roots, from, to, stat, at).0)
  {
    if OwningRoot(roots, to).None? {
      RemovalSound(db, roots, from, at);
    } else {
      LookupFileFacts(db.tree, roots, from);
      var (t, source) := LookupFile(db.tree, roots, from);
      if source.Unknown? {
        SeenIsPoint(Db(t, db.events), roots, to, stat, at);
      }
    }
  }

  /** The requeue at the next start makes up for that exactly if the file was queued anyway,
      has no result, or has one of an older extractor: a modified file with a current result
      stays as it was extracted before the change. Not killed, the change queues it. */
  lemma MissedNewsIff(s: State, skip: seq<string>, input: Input, started: Input)
    requires Possible(s, skip, input) && input.Reported? && Kept(s, skip) && started.Started?
    requires Applied(s.db, s.roots, skip, input.change, input.stat, input.walks, input.at).1.Some?
    requires Applied(s.db, s.roots, skip, input.change, input.stat, input.walks, input.at).1.value in started.live
    ensures var (db, queued) := Applied(s.db, s.roots, skip, input.change, input.stat, input.walks, input.at);
            var id := queued.value;
            && id in After(After(s, skip, input), skip, started).store.queue
            && Next(s, skip, input, State(db, s.roots, s.store))
            && (id in After(State(db, s.roots, s.store), skip, started).store.queue <==>
                  id in s.store.queue || id !in s.store.metadata || s.store.metadata[id] < started.version)
  {
    KilledBeforeQueue(s, skip, input);
  }

  /** A rename into an excluded directory is a departure, out of one an arrival, and within
      one nothing at all. */
  lemma RenameAcrossExclusion(db: Db, roots: seq<Path>, skip: seq<string>, from: Path, to: Path, stat: Stat, walks: Walks, at: int)
    requires Sound(db) && Inside(roots, from) && Inside(roots, to) && stat.Found?
    requires Excluded(from, skip) || Excluded(to, skip)
    ensures var after := Applied(db, roots, skip, Watch.Change.Renamed(from, to), stat, walks, at).0;
            && (Excluded(from, skip) && Excluded(to, skip) ==> after == db)
            && (!Excluded(from, skip) ==> !LiveAt(after.tree, from))
            && (!Excluded(to, skip) ==> exists id: FileId :: RowIs(after.tree, id, to, SizeOf(stat.isDir, stat.len), stat.mtime))
  {
    if !Excluded(from, skip) {
      RemovalEmpties(db, roots, from, at);
    } else if !Excluded(to, skip) {
      InsideParent(roots, to);
      RecordPathFacts(db, roots, to, stat, at);
    }
  }

  /** A file named like an excluded directory: the scan logs that it changed, the watch
      never does. */
  lemma WatchMissesModification(db: Db, roots: seq<Path>, skip: seq<string>, rootId: FileId, root: Path, item: Item,
                                id: FileId, stat: Stat, walks: Walks, at: int)
    requires Sound(db) && LivePath(db.tree, rootId, root) && !Excluded(root, skip)
    requires Recordable(item) && !item.isDir && Pruned(item, skip) && item.path[|item.path| - 1] in skip
    requires LivePath(db.tree, id, root + item.path) && db.tree.files[id].size != Some(item.len)
    ensures Applied(db, roots, skip, Watch.Touched(root + item.path), stat, walks, at) == (db, None)
    ensures Observe(db.tree, rootId, item).1 == Some(NewEvent(id, Modified, item.at, Some(item.len)))
  {
    ScannedButIgnoredIff(root, item, skip);
    ObserveLive(db.tree, rootId, root, item, id);
  }

  lemma ObserveLive(t: Tree, rootId: FileId, root: Path, item: Item, id: FileId)
    requires Valid(t) && LivePath(t, rootId, root) && Recordable(item) && !item.isDir
    requires LivePath(t, id, root + item.path) && t.files[id].size != Some(item.len)
    ensures Observe(t, rootId, item).1 == Some(NewEvent(id, Modified, item.at, Some(item.len)))
  {
    var dirs, name := item.path[..|item.path| - 1], item.path[|item.path| - 1];
    assert root + item.path == root + dirs + [name];
    EntryStays(t, rootId, root, dirs, name, id);
    var (t1, dir) := EnsureDirs(t, Some(rootId), dirs);
    RecordAtLive(t1, dir.value, root + dirs, name, id, Some(item.len), item.mtime);
    ObserveFile(t, rootId, item);
  }

  lemma ObserveFile(t: Tree, rootId: FileId, item: Item)
    requires Recordable(item) && !item.isDir
    ensures var (t1, dir) := EnsureDirs(t, Some(rootId), item.path[..|item.path| - 1]);
            var (u, row, kind) := RecordAt(t1, dir.value, item.path[|item.path| - 1], false, Some(item.len), item.mtime);
            Observe(t, rootId, item).1 == if kind.None? then None else Some(NewEvent(row, kind.value, item.at, Some(item.len)))
  {
  }

  lemma RecordAtLive(t: Tree, dir: FileId, dirPath: Path, name: string, id: FileId, size: Option<int>, mtime: Option<int>)
    requires Valid(t) && LivePath(t, dir, dirPath)
    requires LivePath(t, id, dirPath + [name]) && t.files[id].size != size
    ensures var (u, row, kind) := RecordAt(t, dir, name, false, size, mtime);
            row == id && kind == Some(Modified)
  {
    var (t1, c) := Intern(t, name);
    InternFacts(t, name);
    GrowsLivePath(t, t1, dir, dirPath);
    LiveEntryPath(t1, dir, dirPath, name, c);
    InternLivePath(t, name, id, dirPath + [name]);
  }
}
