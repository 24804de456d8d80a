// What becomes of a change once it is stored: it is pending, or reported as it is, or
// overwritten under its key, or superseded by a rename away from it.
module WatchFates {
  import opened Tables
  import opened Watch
  import opened WatchRuns

  datatype Fate = StillPending | ReportedAt(i: nat) | OverwrittenAt(i: nat) | SupersededAt(i: nat)

  /** The first thing done to a key from position `from` on. */
  function FirstAbout(log: seq<Effect>, p: Path, from: nat): (i: nat)
    requires from <= |log|
    ensures from <= i <= |log| && (i < |log| ==> About(log[i], p))
    ensures forall j :: from <= j < i ==> !About(log[j], p)
    decreases |log| - from
  {
    if from == |log| || About(log[from], p) then from else FirstAbout(log, p, from + 1)
  }

  /** What the next thing done to its key makes of a stored change. */
  function FateOf(log: seq<Effect>, j: nat): Fate
    requires j < |log| && log[j].Stored?
  {
    var i := FirstAbout(log, log[j].path, j + 1);
    if i == |log| then StillPending
    else match log[i]
      case Stored(_, _, _) => OverwrittenAt(i)
      case Superseded(_) => SupersededAt(i)
      case Emitted(_, _, _) => ReportedAt(i)
  }

  lemma LastIs(log: seq<Effect>, p: Path, j: nat)
    requires j < |log| && About(log[j], p) && forall i :: j < i < |log| ==> !About(log[i], p)
    ensures LastAbout(log, p) == Some(j)
  {
    assert LastAbout(log, p).Some?;
  }

  /** Over every run each stored change has exactly one fate: pending with its own stamp;
      reported, once, as it is, after a quiet debounce window; overwritten by a later store
      under its key; or superseded by a rename away from its key. */
  lemma StoredFate(states: seq<State>, inputs: seq<Input>, k: nat, j: nat)
    requires Run(states, inputs) && k <= |inputs|
    requires j < |Log(states, inputs, k)| && Log(states, inputs, k)[j].Stored?
    ensures var log := Log(states, inputs, k);
            var pending := states[k].pending;
            match FateOf(log, j)
            case StillPending => log[j].path in pending && pending[log[j].path] == Pending(log[j].change, log[j].at)
            case ReportedAt(i) =>
              i < |log| && log[i].Emitted? && log[i].path == log[j].path && log[i].change == log[j].change
              && log[i].at - log[j].at >= 500
            case OverwrittenAt(i) => i < |log| && log[i].Stored? && log[i].path == log[j].path
            case SupersededAt(i) => i < |log| && log[i].Superseded? && log[i].path == log[j].path
  {
    var log := Log(states, inputs, k);
    var p := log[j].path;
    var i := FirstAbout(log, p, j + 1);
    if i == |log| {
      LastIs(log, p, j);
      PendingIsLast(log, p);
      LogGivesMaps(states, inputs, k);
    } else if log[i].Emitted? {
      ReportsLatestAndQuiet(states, inputs, k);
      assert ReportOk(log, i);
      LastIs(log[..i], p, j);
    }
  }

  lemma NextIs(log: seq<Effect>, j: nat, i: nat)
    requires j < i <= |log| && log[j].Stored? && (i < |log| ==> About(log[i], log[j].path))
    requires forall l :: j < l < i ==> !About(log[l], log[j].path)
    ensures FirstAbout(log, log[j].path, j + 1) == i
  {
  }

  /** Conversely every report is that of one stored change. */
  lemma ReportHasStore(states: seq<State>, inputs: seq<Input>, k: nat, i: nat) returns (j: nat)
    requires Run(states, inputs) && k <= |inputs|
    requires i < |Log(states, inputs, k)| && Log(states, inputs, k)[i].Emitted?
    ensures var log := Log(states, inputs, k);
            j < i && log[j].Stored? && FateOf(log, j) == ReportedAt(i)
  {
    ReportsLatestAndQuiet(states, inputs, k);
    j := StoreOf(Log(states, inputs, k), i);
  }

  lemma StoreOf(log: seq<Effect>, i: nat) returns (j: nat)
    requires i < |log| && log[i].Emitted? && ReportsOk(log)
    ensures j < i && log[j].Stored? && FateOf(log, j) == ReportedAt(i)
  {
    assert ReportOk(log, i);
    j := LastBefore(log, i, log[i].path);
    NextIs(log, j, i);
  }

  lemma LastBefore(log: seq<Effect>, i: nat, p: Path) returns (j: nat)
    requires i <= |log| && LastAbout(log[..i], p).Some?
    ensures j < i && LastAbout(log[..i], p) == Some(j) && log[..i][j] == log[j] && About(log[j], p)
    ensures forall l :: j < l < i ==> !About(log[l], p)
  {
    j := LastAbout(log[..i], p).value;
    forall l | j < l < i ensures !About(log[l], p) {
      assert log[..i][l] == log[l];
    }
  }

  /** ... and so is every pending key. */
  lemma PendingHasStore(states: seq<State>, inputs: seq<Input>, k: nat, p: Path) returns (j: nat)
    requires Run(states, inputs) && k <= |inputs| && p in states[k].pending
    ensures var log := Log(states, inputs, k);
            j < |log| && log[j].Stored? && log[j].path == p && FateOf(log, j) == StillPending
  {
    var log := Log(states, inputs, k);
    LogGivesMaps(states, inputs, k);
    PendingIsLast(log, p);
    j := LastAbout(log, p).value;
    NextIs(log, j, |log|);
  }

  /** The key is stored under, or renamed away from, between two positions. */
  predicate TouchedBetween(log: seq<Effect>, p: Path, j: nat, i: nat)
    requires i <= |log|
  {
    exists l :: j < l < i && (log[l].Stored? || log[l].Superseded?) && log[l].path == p
  }

  /** Once nothing is pending, a stored change, a rename among them, was reported exactly if
      its key was reported with nothing stored under it, and no rename away from it, before. */
  lemma ReportedUnlessTouched(states: seq<State>, inputs: seq<Input>, k: nat, j: nat)
    requires Run(states, inputs) && k <= |inputs| && states[k].pending == map[]
    requires j < |Log(states, inputs, k)| && Log(states, inputs, k)[j].Stored?
    ensures var log := Log(states, inputs, k);
            FateOf(log, j).ReportedAt? <==>
              exists i :: j < i < |log| && log[i].Emitted? && log[i].path == log[j].path
                && !TouchedBetween(log, log[j].path, j, i)
  {
    var log := Log(states, inputs, k);
    StoredFate(states, inputs, k, j);
    if FateOf(log, j).ReportedAt? {
      var i := FirstAbout(log, log[j].path, j + 1);
      NotTouched(log, j, i);
    }
    forall i | j < i < |log| && log[i].Emitted? && log[i].path == log[j].path && !TouchedBetween(log, log[j].path, j, i)
      ensures FateOf(log, j).ReportedAt?
    {
      ReportedFirst(log, j, i);
    }
  }

  lemma NotTouched(log: seq<Effect>, j: nat, i: nat)
    requires j < |log| && log[j].Stored? && i == FirstAbout(log, log[j].path, j + 1)
    ensures !TouchedBetween(log, log[j].path, j, i)
  {
  }

  lemma ReportedFirst(log: seq<Effect>, j: nat, i: nat)
    requires j < i < |log| && log[j].Stored? && log[i].Emitted? && log[i].path == log[j].path
    requires !TouchedBetween(log, log[j].path, j, i)
    ensures FateOf(log, j).ReportedAt?
  {
    assert About(log[i], log[j].path);
    var next := FirstAbout(log, log[j].path, j + 1);
    assert next <= i;
  }

  // ------------------------------------------------------ a concrete run

  const A: Path := ["home", "a"]
  const B: Path := ["home", "b"]

  /** A rename, a write to its destination before it is reported, and a poll. */
  function RenameThenWrite(): seq<Input> {
    var renamed := Watch.Event(ModifyName(Both), [A, B], None, false);
    var written := Watch.Event(ModifyOther, [B], None, false);
    [Notify(renamed, 0), Notify(written, 100), PollAt([], [B], 1000)]
  }

  function RenameThenWriteStates(): seq<State> {
    var first := State(map[B := Pending(Change.Renamed(A, B), 0)], map[], false);
    var second := State(map[B := Pending(Touched(B), 100)], map[], false);
    [START, first, second, START]
  }

  lemma RenameStored()
    ensures Absorb(START, Watch.Event(ModifyName(Both), [A, B], None, false), 0, 0) == RenameThenWriteStates()[1]
  {
    var effects := EmitRename(A, B, 0);
    assert effects == [effects[0]] + [effects[1]];
    ApplyAllConcat(START, [effects[0]], [effects[1]]);
    ApplyOne(START, effects[0]);
    ApplyOne(Apply(START, effects[0]), effects[1]);
  }

  lemma WriteStored(s: State)
    requires s == RenameThenWriteStates()[1]
    ensures Absorb(s, Watch.Event(ModifyOther, [B], None, false), 1, 100) == RenameThenWriteStates()[2]
  {
    var written := Watch.Event(ModifyOther, [B], None, false);
    assert [B][..0] == [];
    assert StorePaths(ModifyOther, [B], 100) == [Stored(B, Touched(B), 100)];
    assert AbsorbEffects(s, written, 1, 100) == [Stored(B, Touched(B), 100)];
    ApplyOne(s, Stored(B, Touched(B), 100));
  }

  /** A poll that finds one quiet change and nothing else reports it. */
  lemma OneReported(s: State, p: Path, change: Change, at: int, now: int)
    requires s == State(map[p := Pending(change, at)], map[], false) && now >= at + 500
    ensures IsPoll(s, [], [p], now) && Poll(s, [], [p], now) == START && Reported(s, [], [p], now) == [change]
  {
    OneQuiet(s, p, now);
    AfterPoll(s, [], [p], now);
    var one := Emitted(p, change, now);
    assert [p][..0] == [];
    assert DrainEffects(s.pending, [p], now) == [one];
    ApplyOne(s, one);
    assert s.pending - {p} == map[];
    assert Drained(s.pending, [p]) == [change];
  }

  lemma OneQuiet(s: State, p: Path, now: int)
    requires s.pending.Keys == {p} && s.halves == map[] && !s.overflowed && Elapsed(now, s.pending[p].lastSeen) >= DEBOUNCE
    ensures IsOrder([], ExpiredTrackers(s, now)) && Settled(s, [], now) == s && IsOrder([p], Quiet(s, now))
  {
    assert ExpiredTrackers(s, now) == {};
    assert p in s.pending;
    assert Quiet(s, now) == {p};
  }

  /** The run is possible, reports the write alone, and the rename was overwritten. */
  lemma RenameLost()
    ensures Run(RenameThenWriteStates(), RenameThenWrite())
    ensures Reported(RenameThenWriteStates()[2], [], [B], 1000) == [Touched(B)]
  {
    RenameStored();
    WriteStored(RenameThenWriteStates()[1]);
    OneReported(RenameThenWriteStates()[2], B, Touched(B), 100, 1000);
    var inputs := RenameThenWrite();
    assert inputs[..0] == [];
    assert inputs[..1] == [inputs[0]] && [inputs[0]][..0] == [];
    assert Number(inputs, 0) == 0 && Number(inputs, 1) == 1;
  }
}
