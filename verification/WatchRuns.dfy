// Whole runs of the debouncer: every sequence of notifications, backend failures and
// polls, with hash maps walked in any order.
module WatchRuns {
  import opened Tables
  import opened Watch

  datatype Input =
    | Notify(event: Watch.Event, now: int)
    | Failure
    | PollAt(expired: seq<nat>, quiet: seq<Path>, now: int)

  /** The notifications among the inputs, in order. */
  function Heard(inputs: seq<Input>): seq<Watch.Event> {
    if inputs == [] then [] else
    var last := inputs[|inputs| - 1];
    Heard(inputs[..|inputs| - 1]) + (if last.Notify? then [last.event] else [])
  }

  /** How many notifications there were before the k-th input: the number of the next one. */
  function Number(inputs: seq<Input>, k: nat): nat
    requires k <= |inputs|
  {
    |Heard(inputs[..k])|
  }

  ghost predicate Possible(s: State, input: Input) {
    input.PollAt? ==> IsPoll(s, input.expired, input.quiet, input.now)
  }

  function Effects(s: State, input: Input, n: nat): seq<Effect>
    requires Possible(s, input)
  {
    match input
    case Notify(event, now) => AbsorbEffects(s, event, n, now)
    case Failure => []
    case PollAt(expired, quiet, now) => PollEffects(s, expired, quiet, now)
  }

  function After(s: State, input: Input, n: nat): State
    requires Possible(s, input)
  {
    match input
    case Notify(event, now) => Absorb(s, event, n, now)
    case Failure => s.(overflowed := true)
    case PollAt(expired, quiet, now) => Poll(s, expired, quiet, now)
  }

  /** `states[k]` is the debouncer after the first k inputs. */
  ghost predicate Run(states: seq<State>, inputs: seq<Input>) {
    && |states| == |inputs| + 1 && states[0] == START
    && forall k :: 0 <= k < |inputs| ==>
         Possible(states[k], inputs[k]) && states[k + 1] == After(states[k], inputs[k], Number(inputs, k))
  }

  /** Everything done to the maps so far. */
  ghost function Log(states: seq<State>, inputs: seq<Input>, k: nat): seq<Effect>
    requires Run(states, inputs) && k <= |inputs|
  {
    if k == 0 then []
    else Log(states, inputs, k - 1) + Effects(states[k - 1], inputs[k - 1], Number(inputs, k - 1))
  }

  lemma AfterMaps(s: State, input: Input, n: nat)
    requires Possible(s, input)
    ensures After(s, input, n).pending == ApplyAll(s, Effects(s, input, n)).pending
    ensures After(s, input, n).halves == ApplyAll(s, Effects(s, input, n)).halves
  {
  }

  /** The maps are the sum of their single updates. */
  lemma {:induction false} LogGivesMaps(states: seq<State>, inputs: seq<Input>, k: nat)
    requires Run(states, inputs) && k <= |inputs|
    ensures states[k].pending == ApplyAll(START, Log(states, inputs, k)).pending
    ensures states[k].halves == ApplyAll(START, Log(states, inputs, k)).halves
  {
    if k > 0 {
      LogGivesMaps(states, inputs, k - 1);
      var s, n := states[k - 1], Number(inputs, k - 1);
      assert states[k] == After(s, inputs[k - 1], n);
      AfterMaps(s, inputs[k - 1], n);
      MapsFollow(s, Log(states, inputs, k - 1), Effects(s, inputs[k - 1], n));
    }
  }

  lemma MapsFollow(s: State, log: seq<Effect>, effects: seq<Effect>)
    requires s.pending == ApplyAll(START, log).pending && s.halves == ApplyAll(START, log).halves
    ensures ApplyAll(s, effects).pending == ApplyAll(START, log + effects).pending
    ensures ApplyAll(s, effects).halves == ApplyAll(START, log + effects).halves
  {
    ApplyAllConcat(START, log, effects);
    SamePending(s, ApplyAll(START, log), effects);
    SameHalves(s, ApplyAll(START, log), effects);
  }

  /** Effects do not look at the maps, and treat each map on its own. */
  lemma {:induction false} SamePending(s: State, t: State, effects: seq<Effect>)
    requires s.pending == t.pending
    ensures ApplyAll(s, effects).pending == ApplyAll(t, effects).pending
  {
    if effects != [] {
      SamePending(s, t, effects[..|effects| - 1]);
    }
  }

  lemma {:induction false} SameHalves(s: State, t: State, effects: seq<Effect>)
    requires s.halves == t.halves
    ensures ApplyAll(s, effects).halves == ApplyAll(t, effects).halves
  {
    if effects != [] {
      SameHalves(s, t, effects[..|effects| - 1]);
    }
  }

  // ------------------------------------------------------------ debouncing

  predicate About(e: Effect, p: Path) {
    (e.Stored? || e.Superseded? || e.Emitted?) && e.path == p
  }

  /** The last thing done to a key. */
  function LastAbout(log: seq<Effect>, p: Path): (i: Option<nat>)
    ensures i.Some? ==> i.value < |log| && About(log[i.value], p)
    ensures i.Some? ==> forall j :: i.value < j < |log| ==> !About(log[j], p)
    ensures i.None? ==> forall j :: 0 <= j < |log| ==> !About(log[j], p)
  {
    if log == [] then None
    else if About(log[|log| - 1], p) then Some(|log| - 1)
    else LastAbout(log[..|log| - 1], p)
  }

  /** A key is pending exactly when the last thing done to it was to store a change. */
  lemma {:induction false} PendingIsLast(log: seq<Effect>, p: Path)
    ensures var last := LastAbout(log, p);
            var pending := ApplyAll(START, log).pending;
            && (p in pending <==> last.Some? && log[last.value].Stored?)
            && (p in pending ==> pending[p] == Pending(log[last.value].change, log[last.value].at))
  {
    if log != [] {
      PendingIsLast(log[..|log| - 1], p);
    }
  }

  /** The j-th effect, if it reports a change, reports the last one stored under its key,
      not superseded or reported since, and quiet for the debounce window. */
  ghost predicate ReportOk(log: seq<Effect>, j: nat)
    requires j < |log|
  {
    log[j].Emitted? ==>
      var last := LastAbout(log[..j], log[j].path);
      && last.Some? && log[last.value].Stored? && log[last.value].change == log[j].change
      && log[j].at - log[last.value].at >= 500
  }

  ghost predicate ReportsOk(log: seq<Effect>) {
    forall j :: 0 <= j < |log| ==> ReportOk(log, j)
  }

  lemma {:induction false} ExpireResult(s: State, order: seq<nat>, now: int)
    requires forall i :: 0 <= i < |order| ==> order[i] in s.halves
    ensures var t := ApplyAll(s, ExpireEffects(s.halves, order, now));
            && (forall id :: id in t.halves <==> id in s.halves && id !in order)
            && (forall id :: id in t.halves ==> t.halves[id] == s.halves[id])
            && (forall p :: p in t.pending ==>
                  (p in s.pending && t.pending[p] == s.pending[p])
                  || exists i :: 0 <= i < |order| && t.pending[p] == Pending(HalfChange(s.halves[order[i]]), now))
  {
    if order != [] {
      var init, last := order[..|order| - 1], order[|order| - 1];
      ExpireResult(s, init, now);
      ExpireOneMore(s, init, last, now);
      assert order == init + [last];
      var t := ApplyAll(s, ExpireEffects(s.halves, init, now));
      var u := ApplyAll(s, ExpireEffects(s.halves, order, now));
      forall p | p in u.pending && !(p in s.pending && u.pending[p] == s.pending[p])
        ensures exists i :: 0 <= i < |order| && u.pending[p] == Pending(HalfChange(s.halves[order[i]]), now)
      {
        if p == s.halves[last].path {
          assert order[|order| - 1] == last;
        } else {
          assert u.pending[p] == t.pending[p];
          var i :| 0 <= i < |init| && t.pending[p] == Pending(HalfChange(s.halves[init[i]]), now);
          assert order[i] == init[i];
        }
      }
    }
  }

  lemma {:induction false} DrainResult(s: State, order: seq<Path>, now: int)
    requires forall i :: 0 <= i < |order| ==> order[i] in s.pending
    ensures var t := ApplyAll(s, DrainEffects(s.pending, order, now));
            && t.halves == s.halves
            && (forall p :: p in t.pending <==> p in s.pending && p !in order)
            && (forall p :: p in t.pending ==> t.pending[p] == s.pending[p])
  {
    if order != [] {
      var init, last := order[..|order| - 1], order[|order| - 1];
      DrainResult(s, init, now);
      DrainOneMore(s, init, last, now);
      assert order == init + [last];
    }
  }

  lemma {:induction false} ExpireReportsNothing(halves: map<nat, Half>, order: seq<nat>, now: int)
    requires forall i :: 0 <= i < |order| ==> order[i] in halves
    ensures forall i :: 0 <= i < |ExpireEffects(halves, order, now)| ==> !ExpireEffects(halves, order, now)[i].Emitted?
  {
    if order != [] {
      ExpireReportsNothing(halves, order[..|order| - 1], now);
    }
  }

  lemma {:induction false} StoresReportNothing(kind: Kind, paths: seq<Path>, now: int)
    ensures forall i :: 0 <= i < |StorePaths(kind, paths, now)| ==> !StorePaths(kind, paths, now)[i].Emitted?
  {
    if paths != [] {
      StoresReportNothing(kind, paths[..|paths| - 1], now);
    }
  }

  /** Appending effects that report nothing, or one report that is in order. */
  lemma SilentAppend(log: seq<Effect>, more: seq<Effect>)
    requires ReportsOk(log)
    requires forall i :: 0 <= i < |more| ==> !more[i].Emitted?
    ensures ReportsOk(log + more)
  {
    forall j | 0 <= j < |log + more| ensures ReportOk(log + more, j) {
      if j < |log| {
        assert (log + more)[..j] == log[..j];
        assert ReportOk(log, j);
      }
    }
  }

  lemma ReportAppend(log: seq<Effect>, p: Path, change: Change, now: int)
    requires ReportsOk(log)
    requires var pending := ApplyAll(START, log).pending;
             p in pending && pending[p].change == change && Elapsed(now, pending[p].lastSeen) >= DEBOUNCE
    ensures ReportsOk(log + [Emitted(p, change, now)])
  {
    var longer := log + [Emitted(p, change, now)];
    PendingIsLast(log, p);
    forall j | 0 <= j < |longer| ensures ReportOk(longer, j) {
      if j < |log| {
        assert longer[..j] == log[..j];
        assert ReportOk(log, j);
      } else {
        assert longer[..j] == log;
      }
    }
  }

  lemma {:induction false} DrainReports(log: seq<Effect>, s: State, order: seq<Path>, now: int)
    requires s.pending == ApplyAll(START, log).pending
    requires ReportsOk(log)
    requires forall i :: 0 <= i < |order| ==> order[i] in s.pending && Elapsed(now, s.pending[order[i]].lastSeen) >= DEBOUNCE
    requires forall i, j :: 0 <= i < j < |order| ==> order[i] != order[j]
    ensures ReportsOk(log + DrainEffects(s.pending, order, now))
  {
    if order == [] {
      assert log + [] == log;
    } else {
      var init, last := order[..|order| - 1], order[|order| - 1];
      DrainReports(log, s, init, now);
      DrainResult(s, init, now);
      var sofar := log + DrainEffects(s.pending, init, now);
      ApplyAllConcat(START, log, DrainEffects(s.pending, init, now));
      SamePending(s, ApplyAll(START, log), DrainEffects(s.pending, init, now));
      ReportAppend(sofar, last, s.pending[last].change, now);
      assert log + DrainEffects(s.pending, order, now) == sofar + [Emitted(last, s.pending[last].change, now)];
    }
  }

  lemma PollReports(s: State, expired: seq<nat>, quiet: seq<Path>, now: int, log: seq<Effect>)
    requires IsPoll(s, expired, quiet, now) && s.pending == ApplyAll(START, log).pending && ReportsOk(log)
    ensures ReportsOk(log + PollEffects(s, expired, quiet, now))
  {
    var first, t := ExpireEffects(s.halves, expired, now), Settled(s, expired, now);
    ExpireReportsNothing(s.halves, expired, now);
    SilentAppend(log, first);
    ApplyAllConcat(START, log, first);
    SamePending(s, ApplyAll(START, log), first);
    DrainReports(log + first, t, quiet, now);
    assert log + PollEffects(s, expired, quiet, now) == log + first + DrainEffects(t.pending, quiet, now);
  }

  lemma InputReports(s: State, input: Input, n: nat, log: seq<Effect>)
    requires Possible(s, input)
    requires s.pending == ApplyAll(START, log).pending
    requires ReportsOk(log)
    ensures ReportsOk(log + Effects(s, input, n))
  {
    match input
    case Notify(event, now) =>
      StoresReportNothing(event.kind, event.paths, now);
      SilentAppend(log, Effects(s, input, n));
    case Failure =>
      SilentAppend(log, []);
    case PollAt(expired, quiet, now) =>
      PollReports(s, expired, quiet, now, log);
  }

  /** Over every run, each reported change is the last one stored under its key and that key
      was quiet for the debounce window. */
  lemma {:induction false} ReportsLatestAndQuiet(states: seq<State>, inputs: seq<Input>, k: nat)
    requires Run(states, inputs) && k <= |inputs|
    ensures ReportsOk(Log(states, inputs, k))
  {
    if k > 0 {
      ReportsLatestAndQuiet(states, inputs, k - 1);
      LogGivesMaps(states, inputs, k - 1);
      InputReports(states[k - 1], inputs[k - 1], Number(inputs, k - 1), Log(states, inputs, k - 1));
    }
  }

  /** ... and no stored change is reported twice: two reports under one key have a new
      store between them. */
  lemma ReportedOnce(states: seq<State>, inputs: seq<Input>, k: nat, i: nat, j: nat)
    requires Run(states, inputs) && k <= |inputs|
    requires var log := Log(states, inputs, k);
             i < j < |log| && log[i].Emitted? && log[j].Emitted? && log[i].path == log[j].path
    ensures var log := Log(states, inputs, k);
            exists m :: i < m < j && log[m].Stored? && log[m].path == log[j].path
  {
    ReportsLatestAndQuiet(states, inputs, k);
    var log := Log(states, inputs, k);
    assert ReportOk(log, j);
    var m := LastAbout(log[..j], log[j].path).value;
    assert log[..j][i] == log[i];
    assert m >= i && m != i;
  }

  // -------------------------------------------------------------- overflow

  predicate Raises(input: Input) {
    input.Failure? || (input.Notify? && IsOverflow(input.event))
  }

  /** Input j lost notifications and no poll has come after it, up to input k. */
  predicate Unreported(inputs: seq<Input>, j: nat, k: nat) {
    j < k <= |inputs| && Raises(inputs[j]) && forall i :: j < i < k ==> !inputs[i].PollAt?
  }

  /** The flag says whether notifications were lost since the last poll. */
  lemma {:induction false} OverflowSinceLastPoll(states: seq<State>, inputs: seq<Input>, k: nat)
    requires Run(states, inputs) && k <= |inputs|
    ensures states[k].overflowed <==> exists j: nat :: Unreported(inputs, j, k)
  {
    if k > 0 {
      OverflowSinceLastPoll(states, inputs, k - 1);
      var s, input := states[k - 1], inputs[k - 1];
      assert states[k] == After(s, input, Number(inputs, k - 1));
      if input.Notify? {
        ApplyAllKeepsFlag(s, AbsorbEffects(s, input.event, Number(inputs, k - 1), input.now));
      }
      if Raises(input) {
        assert Unreported(inputs, k - 1, k);
      } else if !input.PollAt? {
        assert forall j: nat :: Unreported(inputs, j, k) ==> Unreported(inputs, j, k - 1);
        if s.overflowed {
          var j: nat :| Unreported(inputs, j, k - 1);
          assert Unreported(inputs, j, k);
        }
      } else {
        forall j: nat ensures !Unreported(inputs, j, k) {
        }
      }
    }
  }

  predicate NoneOverflowed(log: seq<Effect>) {
    forall i :: 0 <= i < |log| && log[i].Stored? ==> !log[i].change.Overflowed?
  }

  lemma {:induction false} StoresPlain(kind: Kind, paths: seq<Path>, now: int)
    ensures NoneOverflowed(StorePaths(kind, paths, now))
  {
    if paths != [] {
      StoresPlain(kind, paths[..|paths| - 1], now);
    }
  }

  lemma {:induction false} ExpiresPlain(halves: map<nat, Half>, order: seq<nat>, now: int)
    requires forall i :: 0 <= i < |order| ==> order[i] in halves
    ensures NoneOverflowed(ExpireEffects(halves, order, now))
  {
    if order != [] {
      ExpiresPlain(halves, order[..|order| - 1], now);
    }
  }

  lemma {:induction false} DrainsPlain(pending: map<Path, Pending>, order: seq<Path>, now: int)
    requires forall i :: 0 <= i < |order| ==> order[i] in pending
    ensures NoneOverflowed(DrainEffects(pending, order, now))
  {
    if order != [] {
      DrainsPlain(pending, order[..|order| - 1], now);
    }
  }

  lemma {:induction false} LogPlain(states: seq<State>, inputs: seq<Input>, k: nat)
    requires Run(states, inputs) && k <= |inputs|
    ensures NoneOverflowed(Log(states, inputs, k))
  {
    if k > 0 {
      LogPlain(states, inputs, k - 1);
      EffectsPlain(states[k - 1], inputs[k - 1], Number(inputs, k - 1));
      BothPlain(Log(states, inputs, k - 1), Effects(states[k - 1], inputs[k - 1], Number(inputs, k - 1)));
    }
  }

  lemma BothPlain(a: seq<Effect>, b: seq<Effect>)
    requires NoneOverflowed(a) && NoneOverflowed(b)
    ensures NoneOverflowed(a + b)
  {
  }

  lemma EffectsPlain(s: State, input: Input, n: nat)
    requires Possible(s, input)
    ensures NoneOverflowed(Effects(s, input, n))
  {
    match input
    case Notify(event, now) => StoresPlain(event.kind, event.paths, now);
    case Failure =>
    case PollAt(expired, quiet, now) =>
      ExpiresPlain(s.halves, expired, now);
      DrainsPlain(Settled(s, expired, now).pending, quiet, now);
  }

  lemma NothingPendingOverflowed(states: seq<State>, inputs: seq<Input>, k: nat, expired: seq<nat>, now: int, p: Path)
    requires Run(states, inputs) && k <= |inputs| && IsOrder(expired, ExpiredTrackers(states[k], now))
    requires p in Settled(states[k], expired, now).pending
    ensures !Settled(states[k], expired, now).pending[p].change.Overflowed?
  {
    var s, log := states[k], Log(states, inputs, k);
    var first := ExpireEffects(s.halves, expired, now);
    LogPlain(states, inputs, k);
    ExpiresPlain(s.halves, expired, now);
    LogGivesMaps(states, inputs, k);
    ApplyAllConcat(START, log, first);
    SamePending(s, ApplyAll(START, log), first);
    PendingIsLast(log + first, p);
  }

  /** A poll reports an overflow exactly when notifications were lost since the last poll,
      in first place and once. */
  lemma OverflowFirstAndOnce(states: seq<State>, inputs: seq<Input>, k: nat, i: nat)
    requires Run(states, inputs) && k < |inputs| && inputs[k].PollAt?
    requires i < |Reported(states[k], inputs[k].expired, inputs[k].quiet, inputs[k].now)|
    ensures Reported(states[k], inputs[k].expired, inputs[k].quiet, inputs[k].now)[i].Overflowed?
            <==> i == 0 && exists j: nat :: Unreported(inputs, j, k)
    ensures !states[k + 1].overflowed
  {
    OverflowSinceLastPoll(states, inputs, k);
    var s, expired, quiet, now := states[k], inputs[k].expired, inputs[k].quiet, inputs[k].now;
    var first := if s.overflowed then 1 else 0;
    if i >= first {
      NothingPendingOverflowed(states, inputs, k, expired, now, quiet[i - first]);
    }
  }

  // ----------------------------------------------------------------- flush

  /** Nothing in the maps carries a stamp later than `now`. */
  predicate StampedBy(s: State, now: int) {
    && (forall p :: p in s.pending ==> s.pending[p].lastSeen <= now)
    && (forall t :: t in s.halves ==> s.halves[t].seen <= now)
  }

  lemma {:induction false} EffectsStamp(s: State, effects: seq<Effect>, now: int)
    requires StampedBy(s, now)
    requires forall e :: e in effects && e.Stored? ==> e.at <= now
    requires forall e :: e in effects && e.Waits? ==> e.half.seen <= now
    ensures StampedBy(ApplyAll(s, effects), now)
  {
    if effects != [] {
      EffectsStamp(s, effects[..|effects| - 1], now);
    }
  }

  /** The clock never ran past `now` in the first k inputs. */
  predicate HeardBy(inputs: seq<Input>, k: nat, now: int) {
    k <= |inputs| && forall i :: 0 <= i < k ==> inputs[i].Failure? || inputs[i].now <= now
  }

  lemma {:induction false} RunStampedBy(states: seq<State>, inputs: seq<Input>, k: nat, now: int)
    requires Run(states, inputs) && HeardBy(inputs, k, now)
    ensures StampedBy(states[k], now)
  {
    if k > 0 {
      var s := states[k - 1];
      RunStampedBy(states, inputs, k - 1, now);
      match inputs[k - 1]
      case Notify(event, at) =>
        AbsorbStamps(s, event, Number(inputs, k - 1), now, at);
      case Failure =>
      case PollAt(expired, quiet, at) =>
        var t := Settled(s, expired, at);
        ExpireResult(s, expired, at);
        DrainResult(t, quiet, at);
        AfterPoll(s, expired, quiet, at);
    }
  }

  lemma {:induction false} StoresAt(kind: Kind, paths: seq<Path>, now: int)
    ensures forall e :: e in StorePaths(kind, paths, now) ==> e.Stored? && e.at == now
  {
    if paths != [] {
      StoresAt(kind, paths[..|paths| - 1], now);
    }
  }

  lemma AbsorbStamps(s: State, e: Watch.Event, n: nat, now: int, at: int)
    requires StampedBy(s, now) && at <= now
    ensures StampedBy(Absorb(s, e, n, at), now)
  {
    if !IsOverflow(e) {
      StoresAt(e.kind, e.paths, at);
      EffectsStamp(s, AbsorbEffects(s, e, n, at), now);
    }
  }

  /** A poll, as its two passes one after the other. */
  lemma AfterPoll(s: State, expired: seq<nat>, quiet: seq<Path>, now: int)
    requires IsPoll(s, expired, quiet, now)
    ensures var t := Settled(s, expired, now);
            Poll(s, expired, quiet, now) == ApplyAll(t, DrainEffects(t.pending, quiet, now))
  {
    var t := Settled(s, expired, now);
    var first, second := ExpireEffects(s.halves, expired, now), DrainEffects(t.pending, quiet, now);
    ApplyAllConcat(s, first, second);
    ApplyAllFlag(ApplyAll(s, first), second);
    ApplyAllKeepsFlag(t, second);
  }

  /** With nothing new heard, a poll after the rename window and another a debounce window
      later leave both maps empty: every key was reported last, or superseded by a rename. */
  lemma TwoPollsFlush(states: seq<State>, inputs: seq<Input>, m: nat, now: int)
    requires Run(states, inputs) && |inputs| == m + 2 && HeardBy(inputs, m, now)
    requires inputs[m].PollAt? && inputs[m].now >= now + 1000
    requires inputs[m + 1].PollAt? && inputs[m + 1].now >= inputs[m].now + 500
    ensures states[m + 2].pending == map[] && states[m + 2].halves == map[]
    ensures var log := Log(states, inputs, m + 2);
            forall j :: 0 <= j < |log| && log[j].Stored? ==>
              exists i :: j < i < |log| && About(log[i], log[j].path) && (log[i].Emitted? || log[i].Superseded?)
  {
    var s, first, second := states[m], inputs[m], inputs[m + 1];
    RunStampedBy(states, inputs, m, now);
    RunStampedBy(states, inputs, m + 1, first.now);
    ExpireResult(s, first.expired, first.now);
    var t := Settled(s, first.expired, first.now);
    assert t.halves == map[];
    AfterPoll(s, first.expired, first.quiet, first.now);
    DrainResult(t, first.quiet, first.now);
    assert states[m + 1].halves == map[];
    AfterPoll(states[m + 1], second.expired, second.quiet, second.now);
    var u := Settled(states[m + 1], second.expired, second.now);
    assert second.expired == [];
    assert u.pending == states[m + 1].pending;
    DrainResult(u, second.quiet, second.now);
    assert states[m + 2].pending == map[];
    var log := Log(states, inputs, m + 2);
    LogGivesMaps(states, inputs, m + 2);
    forall j | 0 <= j < |log| && log[j].Stored?
      ensures exists i :: j < i < |log| && About(log[i], log[j].path) && (log[i].Emitted? || log[i].Superseded?)
    {
      PendingIsLast(log, log[j].path);
      var i := LastAbout(log, log[j].path).value;
      assert About(log[j], log[j].path) && About(log[i], log[j].path);
    }
  }
}
