// Each step of the debouncer in terms of what is pending and what waits: what one
// notification stores, and what one poll expires, reports and keeps.
module WatchSteps {
  import opened Tables
  import opened Watch
  import opened WatchRuns

  /** Neither an overflow nor a rename that names both its ends or can be paired. */
  predicate Plain(e: Watch.Event) {
    && !(e.kind == Other && e.needRescan)
    && (e.kind.ModifyName? ==>
          && !(e.kind.mode == Both && |e.paths| >= 2)
          && !((e.kind.mode == From || e.kind.mode == To) && e.paths != [] && e.tracker.Some?))
  }

  /** What a plain notification says of one of its paths. */
  function Told(kind: Kind, path: Path): Change {
    if kind == Remove then Removed(path) else Touched(path)
  }

  /** Every path of a plain notification is pending with its stamp, as removed or touched;
      an access leaves everything, and any of them every other key and what waits, alone. */
  lemma PlainHeard(s: State, e: Watch.Event, n: nat, now: int)
    requires Plain(e)
    ensures var t := Absorb(s, e, n, now);
            && t.halves == s.halves && t.overflowed == s.overflowed
            && (e.kind == Access ==> t.pending == s.pending)
            && (e.kind != Access ==> forall p :: p in e.paths ==> p in t.pending && t.pending[p] == Pending(Told(e.kind, p), now))
            && (forall p :: p !in e.paths ==> (p in t.pending <==> p in s.pending))
            && (forall p :: p !in e.paths && p in s.pending ==> t.pending[p] == s.pending[p])
  {
    StoredPaths(s, e.kind, e.paths, now);
  }

  lemma {:induction false} StoredPaths(s: State, kind: Kind, paths: seq<Path>, now: int)
    ensures var t := ApplyAll(s, StorePaths(kind, paths, now));
            && t.halves == s.halves && t.overflowed == s.overflowed
            && (kind == Access ==> t == s)
            && (kind != Access ==> forall p :: p in paths ==> p in t.pending && t.pending[p] == Pending(Told(kind, p), now))
            && (forall p :: p !in paths ==> (p in t.pending <==> p in s.pending))
            && (forall p :: p !in paths && p in s.pending ==> t.pending[p] == s.pending[p])
  {
    if paths != [] {
      var init, last := paths[..|paths| - 1], paths[|paths| - 1];
      assert paths == init + [last];
      StoredPaths(s, kind, init, now);
      assert paths[..|init|] == init && paths[..|init| + 1] == paths;
      StoreOneMore(s, kind, paths, |init|, now);
    }
  }

  /** An overflow raises the flag and does nothing else. */
  lemma OverflowHeard(s: State, e: Watch.Event, n: nat, now: int)
    requires e.kind == Other && e.needRescan
    ensures Absorb(s, e, n, now) == s.(overflowed := true)
  {
  }

  /** The maps once a rename is stored: nothing is pending under its source any more. */
  function RenameStored(s: State, from: Path, to: Path, now: int): State {
    s.(pending := (s.pending - {from})[to := Pending(Change.Renamed(from, to), now)])
  }

  lemma EmittedRename(s: State, from: Path, to: Path, now: int)
    ensures ApplyAll(s, EmitRename(from, to, now)) == RenameStored(s, from, to, now)
  {
    var effects := EmitRename(from, to, now);
    assert effects == [effects[0]] + [effects[1]];
    ApplyAllConcat(s, [effects[0]], [effects[1]]);
    ApplyOne(s, effects[0]);
    ApplyOne(Apply(s, effects[0]), effects[1]);
  }

  /** Both ends in one notification are a rename at once; further paths are ignored. */
  lemma BothHeard(s: State, e: Watch.Event, n: nat, now: int)
    requires e.kind == ModifyName(Both) && |e.paths| >= 2
    ensures Absorb(s, e, n, now) == RenameStored(s, e.paths[0], e.paths[1], now)
  {
    EmittedRename(s, e.paths[0], e.paths[1], now);
  }

  /** One half: the first, or another of the same end, waits from now on; the opposite end
      completes the rename, whichever comes first. */
  lemma HalfHeard(s: State, e: Watch.Event, n: nat, now: int)
    requires e.kind == ModifyName(From) || e.kind == ModifyName(To)
    requires e.paths != [] && e.tracker.Some?
    ensures var id, path, isSource, t := e.tracker.value, e.paths[0], e.kind == ModifyName(From), Absorb(s, e, n, now);
            if id !in s.halves || s.halves[id].isSource == isSource then
              t == s.(halves := s.halves[id := Half(path, isSource, now, n)])
            else
              var other := s.halves[id].path;
              t == RenameStored(s, if isSource then path else other, if isSource then other else path, now)
                   .(halves := s.halves - {id})
  {
    var id, half := e.tracker.value, HalfOf(e, n, now);
    if id !in s.halves {
      ApplyOne(s, Waits(id, half));
    } else if s.halves[id].isSource == half.isSource {
      var two := [Replaced(id, s.halves[id]), Waits(id, half)];
      assert two == [two[0]] + [two[1]];
      ApplyAllConcat(s, [two[0]], [two[1]]);
      ApplyOne(s, two[0]);
      ApplyOne(Apply(s, two[0]), two[1]);
    } else {
      var from := if half.isSource then half.path else s.halves[id].path;
      var to := if half.isSource then s.halves[id].path else half.path;
      var one := Paired(id, s.halves[id], half);
      ApplyAllConcat(s, [one], EmitRename(from, to, now));
      ApplyOne(s, one);
      EmittedRename(Apply(s, one), from, to, now);
    }
  }

  // ----------------------------------------------------------------- polls

  /** A second has passed since this half was heard. */
  predicate Expiring(s: State, t: nat, now: int) {
    t in s.halves && now - s.halves[t].seen >= 1000
  }

  /** A half that expires now has this path. */
  ghost predicate ExpiringAt(s: State, p: Path, now: int) {
    exists t :: Expiring(s, t, now) && s.halves[t].path == p
  }

  /** What an expired half at `p` leaves pending: its source is gone, its destination new. */
  ghost predicate FromExpired(s: State, p: Path, pending: Pending, now: int) {
    exists t :: Expiring(s, t, now) && s.halves[t].path == p
      && pending == Pending(if s.halves[t].isSource then Removed(p) else Touched(p), now)
  }

  /** Reported now: half a second without news, and no half expiring onto it. */
  ghost predicate DueNow(s: State, p: Path, now: int) {
    p in s.pending && now - s.pending[p].lastSeen >= 500 && !ExpiringAt(s, p, now)
  }

  lemma {:induction false} ExpirePass(s: State, order: seq<nat>, now: int)
    requires forall i :: 0 <= i < |order| ==> order[i] in s.halves && Expiring(s, order[i], now)
    ensures var t := ApplyAll(s, ExpireEffects(s.halves, order, now));
            && (forall p :: p in s.pending ==> p in t.pending)
            && (forall i :: 0 <= i < |order| ==> s.halves[order[i]].path in t.pending)
            && (forall i :: 0 <= i < |order| ==>
                  FromExpired(s, s.halves[order[i]].path, t.pending[s.halves[order[i]].path], now))
            && (forall p :: p in t.pending ==> FromExpired(s, p, t.pending[p], now) || (p in s.pending && t.pending[p] == s.pending[p]))
  {
    if order != [] {
      var init, last := order[..|order| - 1], order[|order| - 1];
      ExpirePass(s, init, now);
      ExpireOneMore(s, init, last, now);
      assert order == init + [last];
      assert Expiring(s, order[|order| - 1], now);
      var half := s.halves[last];
      assert FromExpired(s, half.path, Pending(HalfChange(half), now), now);
    }
  }

  /** Between its two passes a poll has every expired half's path pending as of now. */
  lemma SettledMaps(s: State, expired: seq<nat>, now: int)
    requires IsOrder(expired, ExpiredTrackers(s, now))
    ensures var t := Settled(s, expired, now);
            && (forall id :: id in t.halves <==> id in s.halves && !Expiring(s, id, now))
            && (forall id :: id in t.halves ==> t.halves[id] == s.halves[id])
            && (forall p :: p in t.pending <==> p in s.pending || ExpiringAt(s, p, now))
            && (forall p :: p in t.pending ==>
                  if ExpiringAt(s, p, now) then FromExpired(s, p, t.pending[p], now) else t.pending[p] == s.pending[p])
  {
    ExpireResult(s, expired, now);
    forall id ensures id in expired <==> Expiring(s, id, now) {
    }
    ExpirePass(s, expired, now);
    var t := Settled(s, expired, now);
    forall p | ExpiringAt(s, p, now) ensures p in t.pending && FromExpired(s, p, t.pending[p], now) {
      var id :| Expiring(s, id, now) && s.halves[id].path == p;
      assert id in expired;
      var i :| 0 <= i < |expired| && expired[i] == id;
    }
  }

  /** A poll lets the halves go that are a second old, and no other; their paths are pending
      as of now; what was quiet for half a second is gone; and the rest is as it was. */
  lemma PollKeeps(s: State, expired: seq<nat>, quiet: seq<Path>, now: int)
    requires IsPoll(s, expired, quiet, now)
    ensures var t := Poll(s, expired, quiet, now);
            && !t.overflowed
            && (forall id :: id in t.halves <==> id in s.halves && !Expiring(s, id, now))
            && (forall id :: id in t.halves ==> t.halves[id] == s.halves[id])
            && (forall p :: p in t.pending <==> ExpiringAt(s, p, now) || (p in s.pending && !DueNow(s, p, now)))
            && (forall p :: p in t.pending ==>
                  if ExpiringAt(s, p, now) then FromExpired(s, p, t.pending[p], now) else t.pending[p] == s.pending[p])
  {
    var t := Settled(s, expired, now);
    SettledMaps(s, expired, now);
    AfterPoll(s, expired, quiet, now);
    ApplyAllKeepsFlag(t, DrainEffects(t.pending, quiet, now));
    DrainResult(t, quiet, now);
    DueAreQuiet(s, expired, quiet, now);
  }

  lemma QuietIsDue(s: State, t: State, p: Path, now: int)
    requires p in t.pending <==> p in s.pending || ExpiringAt(s, p, now)
    requires p in t.pending ==> if ExpiringAt(s, p, now) then FromExpired(s, p, t.pending[p], now) else t.pending[p] == s.pending[p]
    ensures p in Quiet(t, now) <==> DueNow(s, p, now)
    ensures DueNow(s, p, now) ==> p in t.pending && t.pending[p] == s.pending[p]
  {
  }

  /** ... and it reports an overflow first, if there was one, and then, once each and in
      some order, just the changes that are due. */
  lemma PollReportsDue(s: State, expired: seq<nat>, quiet: seq<Path>, now: int)
    requires IsPoll(s, expired, quiet, now)
    ensures (forall p :: p in quiet <==> DueNow(s, p, now)) && forall i, j :: 0 <= i < j < |quiet| ==> quiet[i] != quiet[j]
    ensures var out, first := Reported(s, expired, quiet, now), if s.overflowed then 1 else 0;
            && |out| == first + |quiet| && (s.overflowed ==> out[0] == Overflowed)
            && forall i :: 0 <= i < |quiet| ==> quiet[i] in s.pending && out[first + i] == s.pending[quiet[i]].change
  {
    DueAreQuiet(s, expired, quiet, now);
  }

  lemma DueAreQuiet(s: State, expired: seq<nat>, quiet: seq<Path>, now: int)
    requires IsPoll(s, expired, quiet, now)
    ensures forall p :: p in quiet <==> DueNow(s, p, now)
    ensures forall p :: DueNow(s, p, now) ==>
              p in Settled(s, expired, now).pending && Settled(s, expired, now).pending[p] == s.pending[p]
  {
    SettledMaps(s, expired, now);
    forall p
      ensures p in quiet <==> DueNow(s, p, now)
      ensures DueNow(s, p, now) ==>
                p in Settled(s, expired, now).pending && Settled(s, expired, now).pending[p] == s.pending[p]
    {
      QuietIsDue(s, Settled(s, expired, now), p, now);
    }
  }
}
