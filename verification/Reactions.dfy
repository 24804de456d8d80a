// What the observer thread makes of each reported change, excluded paths and both kinds of
// half-excluded renames included: the store's row and log, and the file it queues.
module Reactions {
  import opened Tables
  import opened PathTree
  import opened Recording
  import opened Renaming
  import opened Departure
  import opened Relocation
  import opened Arrivals
  import opened Exclusion
  import opened Observer
  import Watch

  /** A path touched, not excluded and found strictly inside its root, arrives. */
  lemma TouchedArrives(db: Db, roots: seq<Path>, skip: seq<string>, path: Path, stat: Stat, walks: Walks, at: int) returns (id: FileId)
    requires Sound(db) && Inside(roots, path) && !Excluded(path, skip) && stat.Found?
    ensures var (after, queued) := Applied(db, roots, skip, Watch.Touched(path), stat, walks, at);
            Sound(after) && ArrivedAs(db.tree, db.events, after, Recorded(queued), path, stat, at, id)
  {
    id := TouchArrives(db, roots, path, stat, at);
  }

  /** Gone by the time it is looked at, it departs; not to be looked at, nothing happens. */
  lemma TouchedGone(db: Db, roots: seq<Path>, skip: seq<string>, path: Path, walks: Walks, at: int)
    requires Sound(db) && Inside(roots, path) && !Excluded(path, skip)
    ensures var (after, queued) := Applied(db, roots, skip, Watch.Touched(path), Missing, walks, at);
            queued == None && DepartedAs(db, after, path, at)
    ensures Applied(db, roots, skip, Watch.Touched(path), Denied, walks, at) == (db, None)
  {
    VanishedDeparts(db, roots, path, at);
  }

  /** A path removed and not excluded departs, whatever a look at it would find. */
  lemma RemovedDeparts(db: Db, roots: seq<Path>, skip: seq<string>, path: Path, stat: Stat, walks: Walks, at: int)
    requires Sound(db) && Inside(roots, path) && !Excluded(path, skip)
    ensures var (after, queued) := Applied(db, roots, skip, Watch.Removed(path), stat, walks, at);
            queued == None && DepartedAs(db, after, path, at)
  {
    RemovalDeparts(db, roots, path, at);
  }

  /** Out of an excluded directory is an arrival, into one a departure. */
  lemma RenamedOutArrives(db: Db, roots: seq<Path>, skip: seq<string>, from: Path, to: Path, stat: Stat, walks: Walks, at: int)
    returns (id: FileId)
    requires Sound(db) && Inside(roots, to) && Excluded(from, skip) && !Excluded(to, skip) && stat.Found?
    ensures var (after, queued) := Applied(db, roots, skip, Watch.Change.Renamed(from, to), stat, walks, at);
            Sound(after) && ArrivedAs(db.tree, db.events, after, Recorded(queued), to, stat, at, id)
  {
    id := TouchArrives(db, roots, to, stat, at);
  }

  lemma RenamedInDeparts(db: Db, roots: seq<Path>, skip: seq<string>, from: Path, to: Path, stat: Stat, walks: Walks, at: int)
    requires Sound(db) && Inside(roots, from) && !Excluded(from, skip) && Excluded(to, skip)
    ensures var (after, queued) := Applied(db, roots, skip, Watch.Change.Renamed(from, to), stat, walks, at);
            queued == None && DepartedAs(db, after, from, at)
  {
    RemovalDeparts(db, roots, from, at);
  }

  /** Between visible places, what is live at the source is relocated. */
  lemma RenamedMoves(db: Db, roots: seq<Path>, skip: seq<string>, from: Path, to: Path, stat: Stat, walks: Walks, at: int, m: FileId)
    requires Sound(db) && Inside(roots, from) && Inside(roots, to) && !(from < to)
    requires !Excluded(from, skip) && !Excluded(to, skip) && LivePath(db.tree, m, from)
    ensures var (after, queued) := Applied(db, roots, skip, Watch.Change.Renamed(from, to), stat, walks, at);
            && Relocates(db.tree, after.tree, from, to, m)
            && m < |after.tree.files| && RenamedAs(db, after, Recorded(queued), to, stat, at, m)
  {
    RenameRelocates(db, roots, from, to, stat, at, m);
    RenameInFull(db, roots, from, to, stat, at, m);
  }

  /** ... what was never known there arrives at the destination, like a file an editor
      saves under another name first ... */
  lemma RenamedUnknownArrives(db: Db, roots: seq<Path>, skip: seq<string>, from: Path, to: Path, stat: Stat, walks: Walks, at: int)
    returns (id: FileId)
    requires Sound(db) && Movable(roots, from, to) && Inside(roots, to) && stat.Found?
    requires !Excluded(from, skip) && !Excluded(to, skip) && LookupFile(db.tree, roots, from).1.Unknown?
    ensures var (after, queued) := Applied(db, roots, skip, Watch.Change.Renamed(from, to), stat, walks, at);
            var before := if AboveSource(roots, from, to) then LookupFile(db.tree, roots, from).0 else db.tree;
            Sound(after) && ArrivedAs(before, db.events, after, Recorded(queued), to, stat, at, id)
  {
    id := UnknownSourceArrives(db, roots, from, to, stat, at);
  }

  /** ... and what leaves every root departs. */
  lemma RenamedAwayDeparts(db: Db, roots: seq<Path>, skip: seq<string>, from: Path, to: Path, stat: Stat, walks: Walks, at: int)
    requires Sound(db) && Inside(roots, from) && OwningRoot(roots, to).None?
    requires !Excluded(from, skip) && !Excluded(to, skip)
    ensures var (after, queued) := Applied(db, roots, skip, Watch.Change.Renamed(from, to), stat, walks, at);
            queued == None && DepartedAs(db, after, from, at)
  {
    OutsideDestinationDeparts(db, roots, from, to, stat, at);
  }

  /** Nothing comes of a change of excluded paths or of paths outside every root. */
  lemma OutOfSightIgnored(db: Db, roots: seq<Path>, skip: seq<string>, change: Watch.Change, stat: Stat, walks: Walks, at: int)
    requires change.Touched? || change.Removed? ==> Excluded(change.path, skip) || OwningRoot(roots, change.path).None?
    requires change.Renamed? ==> Excluded(change.from, skip) || OwningRoot(roots, change.from).None?
    requires change.Renamed? ==> Excluded(change.to, skip) || OwningRoot(roots, change.to).None?
    ensures change.Overflowed? || Applied(db, roots, skip, change, stat, walks, at) == (db, None)
  {
    if change.Renamed? {
      OutsideIgnored(db, roots, change.from, stat, at);
      OutsideIgnored(db, roots, change.to, stat, at);
    }
  }

  lemma OutsideIgnored(db: Db, roots: seq<Path>, path: Path, stat: Stat, at: int)
    ensures OwningRoot(roots, path).None? ==> RecordPath(db, roots, path, stat, at) == (db, Recorded(None))
    ensures OwningRoot(roots, path).None? ==> RecordRemoval(db, roots, path, at) == (db, Recorded(None))
  {
  }
}
