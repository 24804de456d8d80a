// The scan itself, statement by statement and batch by batch, against its meaning: one
// entry after another, each with its event.
module Scanner {
  import opened Tables
  import opened Paths
  import opened Recording
  import opened Recorder
  import opened Scan

  /** `record_entry`, inside the batch's transaction. */
  method RecordEntry(conn: Connection, interner: Interner, rootId: FileId, item: Item) returns (event: Option<Event>)
    requires Ready(conn, interner) && conn.inTransaction && Recordable(item)
    modifies conn, interner
    ensures Ready(conn, interner) && conn.inTransaction
    ensures (conn.view.tree, event) == Observe(old(conn.view.tree), rootId, item)
    ensures conn.view.events == old(conn.view.events)
    ensures conn.durable == old(conn.durable) && conn.history == old(conn.history)
  {
    var dir := EnsureChainFrom(conn, interner, Some(rootId), item.path[..|item.path| - 1]);
    var size := SizeOf(item.isDir, item.len);
    var id, kind := RecordRow(conn, interner, dir.value, item.path[|item.path| - 1], item.isDir, size, item.mtime);
    event := if kind.Some? then Some(NewEvent(id, kind.value, item.at, size)) else None;
  }

  method AppendEvents(conn: Connection, interner: Interner, batch: seq<Event>)
    requires Ready(conn, interner) && conn.inTransaction
    modifies conn
    ensures Ready(conn, interner) && conn.inTransaction
    ensures conn.view == Db(old(conn.view.tree), old(conn.view.events) + batch)
    ensures conn.durable == old(conn.durable) && conn.history == old(conn.history)
  {
    for i := 0 to |batch|
      invariant Ready(conn, interner) && conn.inTransaction
      invariant conn.view == Db(old(conn.view.tree), old(conn.view.events) + batch[..i])
      invariant conn.durable == old(conn.durable) && conn.history == old(conn.history)
    {
      assert batch[..i + 1] == batch[..i] + [batch[i]];
      conn.Execute(Db(conn.view.tree, conn.view.events + [batch[i]]));
    }
    assert batch[..|batch|] == batch;
  }

  ghost predicate CommitPoints(base: Db, rootId: FileId, items: seq<Item>, added: set<Db>) {
    forall d :: d in added ==> CommitPoint(base, rootId, items, d)
  }

  /** What a scan has done so far: the store with the waiting events in place, and the
      running totals, are those of the entries walked. */
  ghost predicate InStep(view: Db, batch: seq<Event>, base: Db, rootId: FileId, walked: seq<Item>, s: Summary) {
    && Db(view.tree, view.events + batch) == Walk(base, rootId, walked)
    && s.filesSeen == Seen(walked, false) && s.dirsSeen == Seen(walked, true) && s.skipped == Skipped(walked)
    && |base.events| + s.eventsRecorded == |view.events + batch|
  }

  function Counted(s: Summary, item: Item, event: Option<Event>): Summary {
    if item.Unreadable? then s.(skipped := s.skipped + 1)
    else if item.path == [] then s
    else
      var s1 := if event.Some? then s.(eventsRecorded := s.eventsRecorded + 1) else s;
      if item.isDir then s1.(dirsSeen := s1.dirsSeen + 1) else s1.(filesSeen := s1.filesSeen + 1)
  }

  lemma NextInStep(view: Db, batch: seq<Event>, base: Db, rootId: FileId, items: seq<Item>, i: nat, s: Summary)
    requires i < |items| && InStep(view, batch, base, rootId, items[..i], s)
    ensures !Recordable(items[i]) ==> InStep(view, batch, base, rootId, items[..i + 1], Counted(s, items[i], None))
    ensures Recordable(items[i]) ==>
              var (t, event) := Observe(view.tree, rootId, items[i]);
              var batch' := if event.Some? then batch + [event.value] else batch;
              InStep(Db(t, view.events), batch', base, rootId, items[..i + 1], Counted(s, items[i], event))
  {
    var walked := items[..i + 1];
    assert walked[..|walked| - 1] == items[..i];
    if Recordable(items[i]) {
      var event := Observe(view.tree, rootId, items[i]).1;
      if event.Some? {
        assert view.events + batch + [event.value] == view.events + (batch + [event.value]);
      }
    }
  }

  /** `scan_inner`: upserts as entries come, events at each flush, both in one
      transaction, so every commit is a prefix of the walk with its events. */
  method ScanInner(conn: Connection, interner: Interner, rootId: FileId, items: seq<Item>, max: Option<nat>)
    returns (summary: Summary)
    requires Idle(conn, interner)
    modifies conn, interner
    ensures Idle(conn, interner)
    ensures InStep(conn.view, [], old(conn.view), rootId, items[..Admitted(items, max, 0)], summary)
    ensures old(conn.history) <= conn.history
    ensures CommitPoints(old(conn.view), rootId, items, conn.history - old(conn.history))
  {
    ghost var base := conn.view;
    ghost var added: set<Db> := {};
    summary := Summary(0, 0, 0, 0);
    var batch: seq<Event> := [];
    conn.Begin();
    var i := 0;
    assert items[..0] == [];
    while i < |items| && !(max.Some? && summary.filesSeen + summary.dirsSeen >= max.value)
      invariant 0 <= i <= |items| && Admitted(items, max, 0) == Admitted(items, max, i)
      invariant Ready(conn, interner) && conn.inTransaction
      invariant InStep(conn.view, batch, base, rootId, items[..i], summary)
      invariant |batch| < BATCH_SIZE
      invariant conn.history == old(conn.history) + added && CommitPoints(base, rootId, items, added)
    {
      batch, summary := WalkOne(conn, interner, rootId, items[i], batch, summary, base, items, i);
      i := i + 1;
      if |batch| >= BATCH_SIZE {
        batch := Flush(conn, interner, batch, base, rootId, items, i, summary);
        added := added + {conn.view};
        conn.Begin();
      }
    }
    batch := Flush(conn, interner, batch, base, rootId, items, i, summary);
  }

  /** One entry of the walk: recorded, its event put to the batch, and counted. */
  method WalkOne(conn: Connection, interner: Interner, rootId: FileId, item: Item, waiting: seq<Event>, counts: Summary,
                 ghost base: Db, ghost items: seq<Item>, ghost i: nat)
    returns (batch: seq<Event>, summary: Summary)
    requires Ready(conn, interner) && conn.inTransaction
    requires i < |items| && items[i] == item && InStep(conn.view, waiting, base, rootId, items[..i], counts)
    modifies conn, interner
    ensures Ready(conn, interner) && conn.inTransaction
    ensures InStep(conn.view, batch, base, rootId, items[..i + 1], summary) && |batch| <= |waiting| + 1
    ensures conn.durable == old(conn.durable) && conn.history == old(conn.history)
  {
    NextInStep(conn.view, waiting, base, rootId, items, i, counts);
    if !Recordable(item) {
      return waiting, Counted(counts, item, None);
    }
    var event := RecordEntry(conn, interner, rootId, item);
    batch := if event.Some? then waiting + [event.value] else waiting;
    summary := Counted(counts, item, event);
  }

  /** Events first, then commit: the upserts are already in this transaction. */
  method Flush(conn: Connection, interner: Interner, batch: seq<Event>,
               ghost base: Db, ghost rootId: FileId, ghost items: seq<Item>, ghost i: nat, ghost summary: Summary)
    returns (rest: seq<Event>)
    requires Ready(conn, interner) && conn.inTransaction
    requires i <= |items| && InStep(conn.view, batch, base, rootId, items[..i], summary)
    modifies conn
    ensures Idle(conn, interner) && rest == []
    ensures conn.view == Db(old(conn.view.tree), old(conn.view.events) + batch)
    ensures conn.history == old(conn.history) + {conn.view}
    ensures InStep(conn.view, rest, base, rootId, items[..i], summary) && CommitPoint(base, rootId, items, conn.view)
  {
    AppendEvents(conn, interner, batch);
    conn.Commit();
    rest := [];
    assert conn.view.events + rest == conn.view.events;
  }

  datatype ScanResult = Scanned(summary: Summary) | MissingRoot | NoPath

  /** `scan`: the root's chain, then the walk. Whatever the file held between two of its
      statements is a scan point. */
  method ScanRoot(conn: Connection, interner: Interner, root: Path, rootExists: bool, items: seq<Item>, max: Option<nat>)
    returns (result: ScanResult)
    requires Idle(conn, interner)
    modifies conn, interner
    ensures Idle(conn, interner)
    ensures !rootExists ==> result == MissingRoot && conn.view == old(conn.view) && conn.history == old(conn.history)
    ensures rootExists && root == [] ==> result == NoPath && conn.view == old(conn.view) && conn.history == old(conn.history)
    ensures rootExists && root != [] ==>
              && result.Scanned?
              && conn.view == FullScan(old(conn.view), root, items[..Admitted(items, max, 0)])
              && |old(conn.view.events)| + result.summary.eventsRecorded == |conn.view.events|
              && result.summary.filesSeen == Seen(items[..Admitted(items, max, 0)], false)
              && result.summary.dirsSeen == Seen(items[..Admitted(items, max, 0)], true)
              && result.summary.skipped == Skipped(items[..Admitted(items, max, 0)])
              && old(conn.history) <= conn.history
              && ScanPoints(old(conn.view), root, items, conn.history - old(conn.history))
  {
    if !rootExists {
      return MissingRoot;
    }
    ghost var before, history := conn.view, conn.history;
    NormaliseClean(root);
    var rootId := EnsureDirChain(conn, interner, Clean(root));
    if rootId.None? {
      forall d | d in conn.history ensures d in history {
        assert d !in conn.history - history;
      }
      return NoPath;
    }
    ghost var middle := conn.history;
    assert Entered(before, root) == (conn.view, rootId.value);
    var summary := ScanInner(conn, interner, rootId.value, items, max);
    result := Scanned(summary);
    assert conn.view.events + [] == conn.view.events;
    forall d | d in conn.history - history ensures ScanPoint(before, root, items, d) {
      if d in middle {
        assert d in middle - history;
      } else {
        assert d in conn.history - middle;
      }
    }
  }

  ghost predicate ScanPoints(before: Db, root: Path, items: seq<Item>, added: set<Db>)
    requires root != []
  {
    forall d :: d in added ==> ScanPoint(before, root, items, d)
  }
}
