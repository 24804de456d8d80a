// What becomes of the halves of a rename: every one is accounted for, and no rename is
// made up.
module WatchHalves {
  import opened Tables
  import opened Watch
  import opened WatchRuns
  import opened WatchSteps

  /** The notification carries this half. */
  predicate Carries(e: Watch.Event, tracker: nat, half: Half) {
    && IsHalf(e) && e.tracker == Some(tracker)
    && e.paths[0] == half.path && (e.kind.mode.From? <==> half.isSource)
  }

  predicate Known(heard: seq<Watch.Event>, tracker: nat, half: Half) {
    half.born < |heard| && Carries(heard[half.born], tracker, half)
  }

  predicate HalvesKnown(heard: seq<Watch.Event>, halves: map<nat, Half>) {
    forall t :: t in halves ==> Known(heard, t, halves[t])
  }

  predicate NamesBoth(e: Watch.Event, from: Path, to: Path) {
    e.kind.ModifyName? && e.kind.mode.Both? && |e.paths| >= 2 && e.paths[0] == from && e.paths[1] == to
  }

  predicate Opposite(e: Watch.Event, f: Watch.Event, from: Path, to: Path) {
    && IsHalf(e) && IsHalf(f) && e.tracker == f.tracker
    && e.kind.mode.From? && e.paths[0] == from && f.kind.mode.To? && f.paths[0] == to
  }

  /** A rename that the kernel told of: in one notification, or in two opposite halves under
      one tracker. */
  ghost predicate Justified(heard: seq<Watch.Event>, from: Path, to: Path) {
    || (exists k :: 0 <= k < |heard| && NamesBoth(heard[k], from, to))
    || (exists j, k :: 0 <= j < |heard| && 0 <= k < |heard| && Opposite(heard[j], heard[k], from, to))
  }

  /** A plain notification of this path, other than an access, that says so. */
  ghost predicate ToldOf(heard: seq<Watch.Event>, path: Path, change: Change) {
    exists k :: 0 <= k < |heard| && Tells(heard[k], path, change)
  }

  predicate Tells(e: Watch.Event, path: Path, change: Change) {
    Plain(e) && e.kind != Access && path in e.paths && change == Told(e.kind, path)
  }

  /** Stored in place of the half that expired just before. */
  predicate InPlaceOfHalf(log: seq<Effect>, i: nat)
    requires i < |log| && log[i].Stored?
  {
    && i > 0 && log[i - 1].Expired? && log[i - 1].half.path == log[i].path
    && log[i].change == (if log[i - 1].half.isSource then Removed(log[i].path) else Touched(log[i].path))
  }

  /** Where each stored change comes from; what each fate of a half means, and that it was
      that half's. */
  ghost predicate Explained(heard: seq<Watch.Event>, log: seq<Effect>, i: nat)
    requires i < |log|
  {
    match log[i]
    case Stored(path, change, _) =>
      if change.Renamed? then path == change.to && Justified(heard, change.from, change.to)
      else ToldOf(heard, path, change) || InPlaceOfHalf(log, i)
    case Waits(t, half) => Known(heard, t, half)
    case Paired(t, waiting, arriving) =>
      && Known(heard, t, waiting) && Known(heard, t, arriving)
      && waiting.born < arriving.born && waiting.isSource != arriving.isSource
      && i + 2 < |log| && log[i + 2].Stored?
      && log[i + 2].change == (if arriving.isSource then Change.Renamed(arriving.path, waiting.path)
                               else Change.Renamed(waiting.path, arriving.path))
    case Replaced(t, older) =>
      && Known(heard, t, older)
      && i + 1 < |log| && log[i + 1].Waits? && log[i + 1].tracker == t
      && older.born < log[i + 1].half.born && older.isSource == log[i + 1].half.isSource
    case Expired(t, half) =>
      && Known(heard, t, half)
      && i + 1 < |log| && log[i + 1].Stored?
      && log[i + 1].change == (if half.isSource then Removed(half.path) else Touched(half.path))
      && log[i + 1].at - half.seen >= 1000
    case Superseded(_) => true
    case Emitted(_, _, _) => true
  }

  ghost predicate AllExplained(heard: seq<Watch.Event>, log: seq<Effect>) {
    forall i :: 0 <= i < |log| ==> Explained(heard, log, i)
  }

  lemma ExplainedConcat(heard: seq<Watch.Event>, a: seq<Effect>, b: seq<Effect>)
    requires AllExplained(heard, a) && AllExplained(heard, b)
    ensures AllExplained(heard, a + b)
  {
    forall i | 0 <= i < |a + b| ensures Explained(heard, a + b, i) {
      if i < |a| {
        assert Explained(heard, a, i);
      } else {
        assert Explained(heard, b, i - |a|);
      }
    }
  }

  lemma JustifiedGrows(heard: seq<Watch.Event>, e: Watch.Event, from: Path, to: Path)
    requires Justified(heard, from, to)
    ensures Justified(heard + [e], from, to)
  {
    var more := heard + [e];
    if k :| 0 <= k < |heard| && NamesBoth(heard[k], from, to) {
      assert NamesBoth(more[k], from, to);
    } else {
      var j, k :| 0 <= j < |heard| && 0 <= k < |heard| && Opposite(heard[j], heard[k], from, to);
      assert Opposite(more[j], more[k], from, to);
    }
  }

  lemma ExplainedGrows(heard: seq<Watch.Event>, e: Watch.Event, log: seq<Effect>)
    requires AllExplained(heard, log)
    ensures AllExplained(heard + [e], log)
  {
    forall i | 0 <= i < |log| ensures Explained(heard + [e], log, i) {
      assert Explained(heard, log, i);
      if log[i].Stored? && log[i].change.Renamed? {
        JustifiedGrows(heard, e, log[i].change.from, log[i].change.to);
      } else if log[i].Stored? && ToldOf(heard, log[i].path, log[i].change) {
        var k :| 0 <= k < |heard| && Tells(heard[k], log[i].path, log[i].change);
        assert Tells((heard + [e])[k], log[i].path, log[i].change);
      }
    }
  }

  // ------------------------------------------------------------ accounting

  function One(b: bool): nat {
    if b then 1 else 0
  }

  /** How many times the half of the k-th notification leaves the waiting room by this effect. */
  function Fate(e: Effect, k: nat): nat {
    match e
    case Paired(_, waiting, arriving) => One(waiting.born == k) + One(arriving.born == k)
    case Replaced(_, older) => One(older.born == k)
    case Expired(_, half) => One(half.born == k)
    case _ => 0
  }

  function Fates(log: seq<Effect>, k: nat): nat {
    if log == [] then 0 else Fates(log[..|log| - 1], k) + Fate(log[|log| - 1], k)
  }

  lemma {:induction false} FatesConcat(a: seq<Effect>, b: seq<Effect>, k: nat)
    ensures Fates(a + b, k) == Fates(a, k) + Fates(b, k)
  {
    if b == [] {
      assert a + b == a;
    } else {
      assert (a + b)[..|a + b| - 1] == a + b[..|b| - 1];
      FatesConcat(a, b[..|b| - 1], k);
    }
  }

  ghost predicate Waiting(halves: map<nat, Half>, k: nat) {
    exists t :: t in halves && halves[t].born == k
  }

  /** Each half heard is waiting, or has met exactly one fate. */
  ghost predicate Balanced(heard: seq<Watch.Event>, halves: map<nat, Half>, log: seq<Effect>) {
    forall k: nat :: Fates(log, k) + One(Waiting(halves, k)) == One(k < |heard| && IsHalf(heard[k]))
  }

  lemma WaitingLess(heard: seq<Watch.Event>, halves: map<nat, Half>, t: nat, k: nat)
    requires HalvesKnown(heard, halves) && t in halves
    ensures One(Waiting(halves - {t}, k)) + One(halves[t].born == k) == One(Waiting(halves, k))
  {
    var fewer := halves - {t};
    if Waiting(fewer, k) {
      var u :| u in fewer && fewer[u].born == k;
      assert u in halves && halves[u].born == k;
    }
    if Waiting(halves, k) {
      var u :| u in halves && halves[u].born == k;
      if u != t {
        assert u in fewer && fewer[u].born == k;
      }
    }
  }

  lemma WaitingMore(heard: seq<Watch.Event>, halves: map<nat, Half>, t: nat, half: Half, k: nat)
    requires HalvesKnown(heard, halves) && t !in halves && half.born == |heard|
    ensures One(Waiting(halves[t := half], k)) == One(Waiting(halves, k)) + One(half.born == k)
  {
    var more := halves[t := half];
    if Waiting(halves, k) {
      var u :| u in halves && halves[u].born == k;
      assert u in more && more[u].born == k;
    }
    if Waiting(more, k) {
      var u :| u in more && more[u].born == k;
      if u != t {
        assert u in halves && halves[u].born == k;
      }
    }
    if half.born == k {
      assert t in more && more[t].born == k;
    }
  }

  // --------------------------------------------------- one step at a time

  ghost predicate Accounted(heard: seq<Watch.Event>, halves: map<nat, Half>, log: seq<Effect>) {
    HalvesKnown(heard, halves) && AllExplained(heard, log) && Balanced(heard, halves, log)
  }

  lemma {:induction false} StoresKeepHalves(heard: seq<Watch.Event>, s: State, e: Watch.Event, paths: seq<Path>, now: int)
    requires Plain(e) && forall i :: 0 <= i < |paths| ==> paths[i] in e.paths
    ensures ApplyAll(s, StorePaths(e.kind, paths, now)).halves == s.halves
    ensures AllExplained(heard + [e], StorePaths(e.kind, paths, now))
    ensures forall k: nat :: Fates(StorePaths(e.kind, paths, now), k) == 0
  {
    if paths != [] && !e.kind.Access? {
      var last := |paths| - 1;
      var init := StorePaths(e.kind, paths[..last], now);
      var one := [Stored(paths[last], ChangeFor(e.kind, paths[last]).value, now)];
      StoresKeepHalves(heard, s, e, paths[..last], now);
      ApplyAllConcat(s, init, one);
      ApplyOne(ApplyAll(s, init), one[0]);
      assert Tells((heard + [e])[|heard|], paths[last], one[0].change);
      assert Explained(heard + [e], one, 0);
      ExplainedConcat(heard + [e], init, one);
      forall k: nat ensures Fates(init + one, k) == 0 {
        FatesConcat(init, one, k);
      }
    }
  }

  lemma EmitKeepsHalves(heard: seq<Watch.Event>, s: State, from: Path, to: Path, now: int)
    requires Justified(heard, from, to)
    ensures ApplyAll(s, EmitRename(from, to, now)).halves == s.halves
    ensures AllExplained(heard, EmitRename(from, to, now))
    ensures forall k: nat :: Fates(EmitRename(from, to, now), k) == 0
  {
    var effects := EmitRename(from, to, now);
    assert effects == [effects[0]] + [effects[1]];
    ApplyAllConcat(s, [effects[0]], [effects[1]]);
    ApplyOne(s, effects[0]);
    ApplyOne(Apply(s, effects[0]), effects[1]);
    forall k: nat ensures Fates(effects, k) == 0 {
      FatesConcat([effects[0]], [effects[1]], k);
    }
  }

  /** A notification that is no half, and leaves the waiting room alone. */
  lemma PlainStep(heard: seq<Watch.Event>, s: State, log: seq<Effect>, e: Watch.Event, effects: seq<Effect>)
    requires Accounted(heard, s.halves, log) && !IsHalf(e)
    requires ApplyAll(s, effects).halves == s.halves
    requires AllExplained(heard + [e], effects)
    requires forall k: nat :: Fates(effects, k) == 0
    ensures Accounted(heard + [e], ApplyAll(s, effects).halves, log + effects)
  {
    ExplainedGrows(heard, e, log);
    ExplainedConcat(heard + [e], log, effects);
    forall k: nat
      ensures Fates(log + effects, k) + One(Waiting(s.halves, k)) == One(k < |heard + [e]| && IsHalf((heard + [e])[k]))
    {
      FatesConcat(log, effects, k);
      assert Fates(log, k) + One(Waiting(s.halves, k)) == One(k < |heard| && IsHalf(heard[k]));
    }
  }

  /** A first half waits. */
  lemma WaitStep(heard: seq<Watch.Event>, s: State, log: seq<Effect>, e: Watch.Event, now: int)
    requires Accounted(heard, s.halves, log) && IsHalf(e) && e.tracker.value !in s.halves
    ensures var effects := [Waits(e.tracker.value, HalfOf(e, |heard|, now))];
            Accounted(heard + [e], ApplyAll(s, effects).halves, log + effects)
  {
    var t, half, more := e.tracker.value, HalfOf(e, |heard|, now), heard + [e];
    var effects := [Waits(t, half)];
    ApplyOne(s, effects[0]);
    ExplainedGrows(heard, e, log);
    assert Known(more, t, half);
    ExplainedConcat(more, log, effects);
    forall k: nat
      ensures Fates(log + effects, k) + One(Waiting(s.halves[t := half], k)) == One(k < |more| && IsHalf(more[k]))
    {
      FatesConcat(log, effects, k);
      FatesConcat([], effects, k);
      WaitingMore(heard, s.halves, t, half, k);
      assert Fates(log, k) + One(Waiting(s.halves, k)) == One(k < |heard| && IsHalf(heard[k]));
    }
  }

  /** A second half of the same direction takes the place of the first. */
  lemma ReplaceStep(heard: seq<Watch.Event>, s: State, log: seq<Effect>, e: Watch.Event, now: int)
    requires Accounted(heard, s.halves, log) && IsHalf(e) && e.tracker.value in s.halves
    requires s.halves[e.tracker.value].isSource == e.kind.mode.From?
    ensures var t := e.tracker.value;
            var effects := [Replaced(t, s.halves[t]), Waits(t, HalfOf(e, |heard|, now))];
            Accounted(heard + [e], ApplyAll(s, effects).halves, log + effects)
  {
    var t, half, more := e.tracker.value, HalfOf(e, |heard|, now), heard + [e];
    var older := s.halves[t];
    var one, two := [Replaced(t, older)], [Waits(t, half)];
    var effects := [Replaced(t, older), Waits(t, half)];
    assert effects == one + two;
    ApplyAllConcat(s, one, two);
    ApplyOne(s, one[0]);
    ApplyOne(Apply(s, one[0]), two[0]);
    var fewer := s.halves - {t};
    ExplainedGrows(heard, e, log);
    assert Known(more, t, half) && Known(more, t, older);
    assert Explained(more, effects, 0) && Explained(more, effects, 1);
    ExplainedConcat(more, log, effects);
    forall k: nat
      ensures Fates(log + effects, k) + One(Waiting(fewer[t := half], k)) == One(k < |more| && IsHalf(more[k]))
    {
      FatesConcat(log, effects, k);
      FatesConcat(one, two, k);
      FatesConcat([], one, k);
      FatesConcat([], two, k);
      WaitingLess(heard, s.halves, t, k);
      WaitingMore(heard, fewer, t, half, k);
      assert Fates(log, k) + One(Waiting(s.halves, k)) == One(k < |heard| && IsHalf(heard[k]));
    }
  }

  /** Two opposite halves become a rename. */
  lemma PairStep(heard: seq<Watch.Event>, s: State, log: seq<Effect>, e: Watch.Event, now: int)
    requires Accounted(heard, s.halves, log) && IsHalf(e) && e.tracker.value in s.halves
    requires s.halves[e.tracker.value].isSource != e.kind.mode.From?
    ensures var effects := RenameEffects(s.halves, e, |heard|, now).value;
            Accounted(heard + [e], ApplyAll(s, effects).halves, log + effects)
  {
    var t, half, more := e.tracker.value, HalfOf(e, |heard|, now), heard + [e];
    var partner := s.halves[t];
    var from := if half.isSource then half.path else partner.path;
    var to := if half.isSource then partner.path else half.path;
    var one, two := [Paired(t, partner, half)], EmitRename(from, to, now);
    assert Known(more, t, half) && Known(more, t, partner);
    assert Justified(more, from, to) by {
      assert Opposite(more[partner.born], more[half.born], from, to) || Opposite(more[half.born], more[partner.born], from, to);
    }
    ApplyAllConcat(s, one, two);
    ApplyOne(s, one[0]);
    EmitKeepsHalves(more, Apply(s, one[0]), from, to, now);
    assert ApplyAll(s, one + two).halves == s.halves - {t};
    assert AllExplained(more, log + (one + two)) by {
      ExplainedGrows(heard, e, log);
      PairExplained(more, t, partner, half, from, to, now);
      ExplainedConcat(more, log, one + two);
    }
    PairBalanced(heard, s.halves, log, e, now, one, two);
    assert RenameEffects(s.halves, e, |heard|, now).value == one + two;
  }

  lemma PairBalanced(heard: seq<Watch.Event>, halves: map<nat, Half>, log: seq<Effect>, e: Watch.Event, now: int,
                     one: seq<Effect>, two: seq<Effect>)
    requires HalvesKnown(heard, halves) && Balanced(heard, halves, log) && IsHalf(e) && e.tracker.value in halves
    requires one == [Paired(e.tracker.value, halves[e.tracker.value], HalfOf(e, |heard|, now))]
    requires forall k: nat :: Fates(two, k) == 0
    ensures Balanced(heard + [e], halves - {e.tracker.value}, log + (one + two))
  {
    var t, more := e.tracker.value, heard + [e];
    forall k: nat
      ensures Fates(log + (one + two), k) + One(Waiting(halves - {t}, k)) == One(k < |more| && IsHalf(more[k]))
    {
      FatesConcat(log, one + two, k);
      FatesConcat(one, two, k);
      FatesConcat([], one, k);
      WaitingLess(heard, halves, t, k);
      assert Fates(log, k) + One(Waiting(halves, k)) == One(k < |heard| && IsHalf(heard[k]));
    }
  }

  lemma PairExplained(heard: seq<Watch.Event>, t: nat, partner: Half, half: Half, from: Path, to: Path, now: int)
    requires Known(heard, t, partner) && Known(heard, t, half)
    requires partner.born < half.born && partner.isSource != half.isSource
    requires from == (if half.isSource then half.path else partner.path)
    requires to == (if half.isSource then partner.path else half.path)
    requires Justified(heard, from, to)
    ensures AllExplained(heard, [Paired(t, partner, half)] + EmitRename(from, to, now))
  {
    var effects := [Paired(t, partner, half)] + EmitRename(from, to, now);
    assert effects == [Paired(t, partner, half), Superseded(from), Stored(to, Change.Renamed(from, to), now)];
    assert Explained(heard, effects, 0);
    assert Explained(heard, effects, 2);
  }

  lemma NotifyStep(heard: seq<Watch.Event>, s: State, log: seq<Effect>, e: Watch.Event, now: int)
    requires Accounted(heard, s.halves, log)
    ensures Accounted(heard + [e], Absorb(s, e, |heard|, now).halves, log + AbsorbEffects(s, e, |heard|, now))
  {
    var effects := AbsorbEffects(s, e, |heard|, now);
    if IsHalf(e) {
      var t := e.tracker.value;
      if t !in s.halves {
        WaitStep(heard, s, log, e, now);
      } else if s.halves[t].isSource == e.kind.mode.From? {
        ReplaceStep(heard, s, log, e, now);
      } else {
        PairStep(heard, s, log, e, now);
      }
    } else if e.kind.ModifyName? && e.kind.mode.Both? && |e.paths| >= 2 {
      assert NamesBoth((heard + [e])[|heard|], e.paths[0], e.paths[1]);
      EmitKeepsHalves(heard + [e], s, e.paths[0], e.paths[1], now);
      PlainStep(heard, s, log, e, effects);
    } else if IsOverflow(e) {
      PlainStep(heard, s, log, e, []);
    } else {
      StoresKeepHalves(heard, s, e, e.paths, now);
      PlainStep(heard, s, log, e, effects);
    }
  }

  lemma {:induction false} ExpireStep(heard: seq<Watch.Event>, s: State, log: seq<Effect>, order: seq<nat>, now: int)
    requires Accounted(heard, s.halves, log)
    requires forall i, j :: 0 <= i < j < |order| ==> order[i] != order[j]
    requires forall i :: 0 <= i < |order| ==> order[i] in s.halves && Elapsed(now, s.halves[order[i]].seen) >= PENDING_RENAME_TTL
    ensures var effects := ExpireEffects(s.halves, order, now);
            Accounted(heard, ApplyAll(s, effects).halves, log + effects)
  {
    if order == [] {
      assert log + [] == log;
    } else {
      var init, t := order[..|order| - 1], order[|order| - 1];
      var half := s.halves[t];
      var first := ExpireEffects(s.halves, init, now);
      var two := [Expired(t, half), Stored(half.path, HalfChange(half), now)];
      var u := ApplyAll(s, first);
      assert ApplyAll(s, ExpireEffects(s.halves, order, now)).halves == u.halves - {t} && u.halves[t] == half by {
        ExpireResult(s, init, now);
        ExpireOneMore(s, init, t, now);
        assert t in u.halves;
        assert order == init + [t];
      }
      assert log + ExpireEffects(s.halves, order, now) == log + first + two;
      ExpireStep(heard, s, log, init, now);
      ExpireOne(heard, u.halves, log + first, t, now);
    }
  }

  lemma ExpireOne(heard: seq<Watch.Event>, halves: map<nat, Half>, log: seq<Effect>, t: nat, now: int)
    requires Accounted(heard, halves, log) && t in halves && Elapsed(now, halves[t].seen) >= PENDING_RENAME_TTL
    ensures var half := halves[t];
            Accounted(heard, halves - {t}, log + [Expired(t, half), Stored(half.path, HalfChange(half), now)])
  {
    var half := halves[t];
    var two := [Expired(t, half), Stored(half.path, HalfChange(half), now)];
    assert Explained(heard, two, 0) && Explained(heard, two, 1);
    ExplainedConcat(heard, log, two);
    forall k: nat
      ensures Fates(log + two, k) + One(Waiting(halves - {t}, k)) == One(k < |heard| && IsHalf(heard[k]))
    {
      FatesConcat(log, two, k);
      assert two == [two[0]] + [two[1]];
      FatesConcat([two[0]], [two[1]], k);
      FatesConcat([], [two[0]], k);
      FatesConcat([], [two[1]], k);
      WaitingLess(heard, halves, t, k);
      assert Fates(log, k) + One(Waiting(halves, k)) == One(k < |heard| && IsHalf(heard[k]));
    }
  }

  lemma {:induction false} DrainStep(heard: seq<Watch.Event>, halves: map<nat, Half>, log: seq<Effect>,
                                    pending: map<Path, Pending>, order: seq<Path>, now: int)
    requires Accounted(heard, halves, log)
    requires forall i :: 0 <= i < |order| ==> order[i] in pending
    ensures Accounted(heard, halves, log + DrainEffects(pending, order, now))
  {
    if order == [] {
      assert log + [] == log;
    } else {
      var init, p := order[..|order| - 1], order[|order| - 1];
      var before, one := log + DrainEffects(pending, init, now), [Emitted(p, pending[p].change, now)];
      DrainStep(heard, halves, log, pending, init, now);
      ExplainedConcat(heard, before, one);
      forall k: nat ensures Fates(before + one, k) == Fates(before, k) {
        FatesConcat(before, one, k);
        FatesConcat([], one, k);
      }
      assert log + DrainEffects(pending, order, now) == before + one;
    }
  }

  lemma PollStep(heard: seq<Watch.Event>, s: State, log: seq<Effect>, expired: seq<nat>, quiet: seq<Path>, now: int)
    requires Accounted(heard, s.halves, log) && IsPoll(s, expired, quiet, now)
    ensures Accounted(heard, Poll(s, expired, quiet, now).halves, log + PollEffects(s, expired, quiet, now))
  {
    var first := ExpireEffects(s.halves, expired, now);
    var t := Settled(s, expired, now);
    ExpireStep(heard, s, log, expired, now);
    DrainStep(heard, t.halves, log + first, t.pending, quiet, now);
    PollHalves(s, expired, quiet, now);
    Regroup(log, first, DrainEffects(t.pending, quiet, now));
  }

  lemma PollHalves(s: State, expired: seq<nat>, quiet: seq<Path>, now: int)
    requires IsPoll(s, expired, quiet, now)
    ensures Poll(s, expired, quiet, now).halves == Settled(s, expired, now).halves
  {
    DrainResult(Settled(s, expired, now), quiet, now);
    AfterPoll(s, expired, quiet, now);
  }

  lemma Regroup(a: seq<Effect>, b: seq<Effect>, c: seq<Effect>)
    ensures a + (b + c) == a + b + c
  {
  }

  /** Over every run, each half heard is in exactly one place: it waits, was paired with an
      opposite half of its tracker, was replaced by a later one of its direction, or expired
      to a removal or a touch; and no rename is stored that the kernel did not tell of. */
  lemma {:induction false} HalvesAccounted(states: seq<State>, inputs: seq<Input>, k: nat)
    requires Run(states, inputs) && k <= |inputs|
    ensures Accounted(Heard(inputs[..k]), states[k].halves, Log(states, inputs, k))
  {
    if k > 0 {
      var s, input, log := states[k - 1], inputs[k - 1], Log(states, inputs, k - 1);
      var heard := Heard(inputs[..k - 1]);
      HalvesAccounted(states, inputs, k - 1);
      assert inputs[..k][..k - 1] == inputs[..k - 1];
      match input
      case Notify(event, now) => NotifyStep(heard, s, log, event, now);
      case Failure =>
        assert log + [] == log && heard + [] == heard;
      case PollAt(expired, quiet, now) =>
        PollStep(heard, s, log, expired, quiet, now);
        assert heard + [] == heard;
    }
  }

  /** A rename that is reported was told by the kernel, whatever happened in between. */
  lemma ReportedRenameJustified(states: seq<State>, inputs: seq<Input>, k: nat, j: nat)
    requires Run(states, inputs) && k <= |inputs| && j < |Log(states, inputs, k)|
    requires var e := Log(states, inputs, k)[j]; e.Emitted? && e.change.Renamed?
    ensures var e := Log(states, inputs, k)[j];
            e.path == e.change.to && Justified(Heard(inputs[..k]), e.change.from, e.change.to)
  {
    var log := Log(states, inputs, k);
    ReportsLatestAndQuiet(states, inputs, k);
    HalvesAccounted(states, inputs, k);
    assert ReportOk(log, j);
    var m := LastAbout(log[..j], log[j].path).value;
    assert Explained(Heard(inputs[..k]), log, m);
  }
}
