// The watch debouncer: raw notifications are coalesced per path, rename halves are
// paired by the kernel's tracker id, and what has gone quiet is reported.
module Watch {
  import opened Tables

  /** Milliseconds. */
  const DEBOUNCE: int := 500
  const PENDING_RENAME_TTL: int := 1_000

  datatype Change = Touched(path: Path) | Removed(path: Path) | Renamed(from: Path, to: Path) | Overflowed

  datatype RenameMode = Both | From | To | AnyMode

  datatype Kind = Remove | Create | ModifyName(mode: RenameMode) | ModifyOther | Access | AnyKind | Other

  datatype Event = Event(kind: Kind, paths: seq<Path>, tracker: Option<nat>, needRescan: bool)

  datatype Pending = Pending(change: Change, lastSeen: int)

  /** `born` is the number of the notification it came in; only the proofs look at it. */
  datatype Half = Half(path: Path, isSource: bool, seen: int, born: nat)

  datatype State = State(pending: map<Path, Pending>, halves: map<nat, Half>, overflowed: bool)

  const START := State(map[], map[], false)

  // ---------------------------------------------------------------- effects

  /** The single updates of the two maps, as they happen. */
  datatype Effect =
    | Stored(path: Path, change: Change, at: int)
    | Superseded(path: Path)
    | Emitted(path: Path, change: Change, at: int)
    | Waits(tracker: nat, half: Half)
    | Paired(tracker: nat, waiting: Half, arriving: Half)
    | Replaced(tracker: nat, older: Half)
    | Expired(tracker: nat, half: Half)

  function Apply(s: State, e: Effect): State {
    match e
    case Stored(path, change, at) => s.(pending := s.pending[path := Pending(change, at)])
    case Superseded(path) => s.(pending := s.pending - {path})
    case Emitted(path, _, _) => s.(pending := s.pending - {path})
    case Waits(tracker, half) => s.(halves := s.halves[tracker := half])
    case Paired(tracker, _, _) => s.(halves := s.halves - {tracker})
    case Replaced(tracker, _) => s.(halves := s.halves - {tracker})
    case Expired(tracker, _) => s.(halves := s.halves - {tracker})
  }

  function ApplyAll(s: State, effects: seq<Effect>): State {
    if effects == [] then s else Apply(ApplyAll(s, effects[..|effects| - 1]), effects[|effects| - 1])
  }

  lemma {:induction false} ApplyAllConcat(s: State, a: seq<Effect>, b: seq<Effect>)
    ensures ApplyAll(s, a + b) == ApplyAll(ApplyAll(s, a), b)
  {
    if b == [] {
      assert a + b == a;
    } else {
      var init := b[..|b| - 1];
      ApplyAllConcat(s, a, init);
      assert (a + b)[..|a + b| - 1] == a + init;
    }
  }

  /** `now.duration_since(seen)`, which saturates at zero. */
  function Elapsed(now: int, seen: int): int {
    if now > seen then now - seen else 0
  }

  // ---------------------------------------------------------- what is done

  function ChangeFor(kind: Kind, path: Path): Option<Change> {
    match kind
    case Remove => Some(Removed(path))
    case Create => Some(Touched(path))
    case ModifyName(_) => Some(Touched(path))
    case ModifyOther => Some(Touched(path))
    case Access => None
    case AnyKind => Some(Touched(path))
    case Other => Some(Touched(path))
  }

  function StorePaths(kind: Kind, paths: seq<Path>, now: int): seq<Effect> {
    if paths == [] || kind.Access? then [] else
    var last := paths[|paths| - 1];
    StorePaths(kind, paths[..|paths| - 1], now) + [Stored(last, ChangeFor(kind, last).value, now)]
  }

  function EmitRename(from: Path, to: Path, now: int): seq<Effect> {
    [Superseded(from), Stored(to, Change.Renamed(from, to), now)]
  }

  /** A notification that carries one half of a rename, with a tracker to pair it on. */
  predicate IsHalf(e: Event) {
    e.kind.ModifyName? && (e.kind.mode.From? || e.kind.mode.To?) && e.paths != [] && e.tracker.Some?
  }

  function HalfOf(e: Event, n: nat, now: int): Half
    requires IsHalf(e)
  {
    Half(e.paths[0], e.kind.mode.From?, now, n)
  }

  /** `absorb_rename`, where it does interpret the event. */
  function RenameEffects(halves: map<nat, Half>, e: Event, n: nat, now: int): Option<seq<Effect>> {
    if !e.kind.ModifyName? then None
    else if e.kind.mode.Both? && |e.paths| >= 2 then Some(EmitRename(e.paths[0], e.paths[1], now))
    else if IsHalf(e) then
      var half := HalfOf(e, n, now);
      var t := e.tracker.value;
      if t !in halves then Some([Waits(t, half)])
      else if halves[t].isSource == half.isSource then Some([Replaced(t, halves[t]), Waits(t, half)])
      else
        var from := if half.isSource then half.path else halves[t].path;
        var to := if half.isSource then halves[t].path else half.path;
        Some([Paired(t, halves[t], half)] + EmitRename(from, to, now))
    else None
  }

  predicate IsOverflow(e: Event) {
    e.kind.Other? && e.needRescan
  }

  /** `absorb`, for the n-th notification. */
  function AbsorbEffects(s: State, e: Event, n: nat, now: int): seq<Effect> {
    if IsOverflow(e) then [] else
    var renamed := RenameEffects(s.halves, e, n, now);
    if renamed.Some? then renamed.value else StorePaths(e.kind, e.paths, now)
  }

  function Absorb(s: State, e: Event, n: nat, now: int): State {
    var t := ApplyAll(s, AbsorbEffects(s, e, n, now));
    if IsOverflow(e) then t.(overflowed := true) else t
  }

  /** Distinct elements of a set, in some order: the order of a hash map's entries. */
  predicate IsOrder<T(==)>(order: seq<T>, elements: set<T>) {
    && (forall i, j :: 0 <= i < j < |order| ==> order[i] != order[j])
    && (forall i :: 0 <= i < |order| ==> order[i] in elements)
    && (forall x :: x in elements ==> x in order)
  }

  function ExpiredTrackers(s: State, now: int): set<nat> {
    set t | t in s.halves && Elapsed(now, s.halves[t].seen) >= PENDING_RENAME_TTL
  }

  function HalfChange(half: Half): Change {
    if half.isSource then Removed(half.path) else Touched(half.path)
  }

  function ExpireEffects(halves: map<nat, Half>, order: seq<nat>, now: int): seq<Effect>
    requires forall i :: 0 <= i < |order| ==> order[i] in halves
  {
    if order == [] then [] else
    var t := order[|order| - 1];
    ExpireEffects(halves, order[..|order| - 1], now)
    + [Expired(t, halves[t]), Stored(halves[t].path, HalfChange(halves[t]), now)]
  }

  function Quiet(s: State, now: int): set<Path> {
    set p | p in s.pending && Elapsed(now, s.pending[p].lastSeen) >= DEBOUNCE
  }

  function DrainEffects(pending: map<Path, Pending>, order: seq<Path>, now: int): seq<Effect>
    requires forall i :: 0 <= i < |order| ==> order[i] in pending
  {
    if order == [] then [] else
    var p := order[|order| - 1];
    DrainEffects(pending, order[..|order| - 1], now) + [Emitted(p, pending[p].change, now)]
  }

  function Drained(pending: map<Path, Pending>, order: seq<Path>): seq<Change>
    requires forall i :: 0 <= i < |order| ==> order[i] in pending
  {
    seq(|order|, i requires 0 <= i < |order| => pending[order[i]].change)
  }

  /** The state between the two passes of a poll. */
  function Settled(s: State, expired: seq<nat>, now: int): State
    requires IsOrder(expired, ExpiredTrackers(s, now))
  {
    ApplyAll(s, ExpireEffects(s.halves, expired, now)).(overflowed := false)
  }

  ghost predicate IsPoll(s: State, expired: seq<nat>, quiet: seq<Path>, now: int) {
    IsOrder(expired, ExpiredTrackers(s, now)) && IsOrder(quiet, Quiet(Settled(s, expired, now), now))
  }

  /** `take_expired`: what it does to the maps, and what it reports. */
  function PollEffects(s: State, expired: seq<nat>, quiet: seq<Path>, now: int): seq<Effect>
    requires IsPoll(s, expired, quiet, now)
  {
    ExpireEffects(s.halves, expired, now) + DrainEffects(Settled(s, expired, now).pending, quiet, now)
  }

  function Poll(s: State, expired: seq<nat>, quiet: seq<Path>, now: int): State
    requires IsPoll(s, expired, quiet, now)
  {
    ApplyAll(s, PollEffects(s, expired, quiet, now)).(overflowed := false)
  }

  function Reported(s: State, expired: seq<nat>, quiet: seq<Path>, now: int): seq<Change>
    requires IsPoll(s, expired, quiet, now)
  {
    (if s.overflowed then [Overflowed] else []) + Drained(Settled(s, expired, now).pending, quiet)
  }

  // ---------------------------------------------------------------- the class

  class Watcher {
    var pending: map<Path, Pending>
    var halves: map<nat, Half>
    var overflowed: bool
    var seen: nat  // notifications absorbed so far; only the proofs look at it

    ghost function Value(): State
      reads this
    {
      State(pending, halves, overflowed)
    }

    constructor ()
      ensures Value() == START && seen == 0
    {
      pending, halves, overflowed, seen := map[], map[], false, 0;
    }

    method AbsorbEvent(e: Event, now: int)
      modifies this
      ensures Value() == Absorb(old(Value()), e, old(seen), now) && seen == old(seen) + 1
    {
      ghost var s := Value();
      var n := seen;
      seen := seen + 1;
      if IsOverflow(e) {
        overflowed := true;
        return;
      }
      if e.kind.ModifyName? {
        var done := AbsorbRename(e, n, now);
        if done {
          return;
        }
      }
      StoreChanges(e.kind, e.paths, now);
    }

    method StoreChanges(kind: Kind, paths: seq<Path>, now: int)
      modifies this`pending
      ensures Value() == ApplyAll(old(Value()), StorePaths(kind, paths, now))
    {
      ghost var s := Value();
      var i := 0;
      assert paths[..0] == [];
      while i < |paths|
        invariant 0 <= i <= |paths|
        invariant Value() == ApplyAll(s, StorePaths(kind, paths[..i], now))
      {
        StoreOneMore(s, kind, paths, i, now);
        ghost var before := Value();
        var path := paths[i];
        i := i + 1;
        var change := ChangeFor(kind, path);
        if change.Some? {
          pending := pending[path := Pending(change.value, now)];
        }
        assert Value() == StoreOne(before, kind, path, now);
      }
      assert paths[..|paths|] == paths;
    }

    method AbsorbRename(e: Event, n: nat, now: int) returns (done: bool)
      requires e.kind.ModifyName?
      modifies this`pending, this`halves
      ensures done <==> RenameEffects(old(halves), e, n, now).Some?
      ensures done ==> Value() == ApplyAll(old(Value()), RenameEffects(old(halves), e, n, now).value)
      ensures !done ==> Value() == old(Value())
    {
      ghost var s := Value();
      if e.kind.mode.Both? && |e.paths| >= 2 {
        RenameEmission(e.paths[0], e.paths[1], now);
        return true;
      }
      if !(e.kind.mode.From? || e.kind.mode.To?) || e.paths == [] || e.tracker.None? {
        return false;
      }
      var path, tracker, isSource := e.paths[0], e.tracker.value, e.kind.mode.From?;
      var half := Half(path, isSource, now, n);
      if tracker in halves {
        var partner := halves[tracker];
        halves := halves - {tracker};
        if partner.isSource != isSource {
          ApplyOne(s, Paired(tracker, partner, half));
          if isSource {
            RenameEmission(path, partner.path, now);
            ApplyAllConcat(s, [Paired(tracker, partner, half)], EmitRename(path, partner.path, now));
          } else {
            RenameEmission(partner.path, path, now);
            ApplyAllConcat(s, [Paired(tracker, partner, half)], EmitRename(partner.path, path, now));
          }
          return true;
        }
        ApplyAllConcat(s, [Replaced(tracker, partner)], [Waits(tracker, half)]);
        ApplyOne(s, Replaced(tracker, partner));
      }
      ApplyOne(Value(), Waits(tracker, half));
      halves := halves[tracker := half];
      return true;
    }

    method RenameEmission(from: Path, to: Path, now: int)
      modifies this`pending
      ensures Value() == ApplyAll(old(Value()), EmitRename(from, to, now))
    {
      ApplyAllConcat(Value(), [Superseded(from)], [Stored(to, Change.Renamed(from, to), now)]);
      ApplyOne(Value(), Superseded(from));
      pending := pending - {from};
      ApplyOne(Value(), Stored(to, Change.Renamed(from, to), now));
      pending := pending[to := Pending(Change.Renamed(from, to), now)];
    }

    /** `take_expired`. Hash maps are walked in an arbitrary order, reported for the proofs. */
    method TakeExpired(now: int) returns (out: seq<Change>, ghost expired: seq<nat>, ghost quiet: seq<Path>)
      modifies this`pending, this`halves, this`overflowed
      ensures IsPoll(old(Value()), expired, quiet, now)
      ensures Value() == Poll(old(Value()), expired, quiet, now)
      ensures out == Reported(old(Value()), expired, quiet, now)
    {
      ghost var s := Value();
      expired := ExpirePendingRenames(now);
      out := if overflowed then [Overflowed] else [];
      ApplyAllKeepsFlag(s, ExpireEffects(s.halves, expired, now));
      overflowed := false;
      ghost var t := Value();
      assert t == Settled(s, expired, now);
      var due;
      due, quiet := Drain(now);
      ApplyAllConcat(s, ExpireEffects(s.halves, expired, now), DrainEffects(t.pending, quiet, now));
      ApplyAllFlag(ApplyAll(s, ExpireEffects(s.halves, expired, now)), DrainEffects(t.pending, quiet, now));
      ApplyAllKeepsFlag(t, DrainEffects(t.pending, quiet, now));
      out := out + due;
    }

    method ExpirePendingRenames(now: int) returns (ghost order: seq<nat>)
      modifies this`pending, this`halves
      ensures IsOrder(order, ExpiredTrackers(old(Value()), now))
      ensures Value() == ApplyAll(old(Value()), ExpireEffects(old(halves), order, now))
    {
      ghost var s := Value();
      var todo := set t | t in halves && Elapsed(now, halves[t].seen) >= PENDING_RENAME_TTL;
      order := [];
      while todo != {}
        invariant todo <= ExpiredTrackers(s, now)
        invariant IsOrder(order, ExpiredTrackers(s, now) - todo)
        invariant forall t :: t in todo ==> t in halves && halves[t] == s.halves[t]
        invariant Value() == ApplyAll(s, ExpireEffects(s.halves, order, now))
        decreases todo
      {
        var t :| t in todo;
        var half := halves[t];
        ExpireOneMore(s, order, t, now);
        OrderMore(order, ExpiredTrackers(s, now), todo, t);
        todo := todo - {t};
        order := order + [t];
        halves := halves - {t};
        pending := pending[half.path := Pending(HalfChange(half), now)];
      }
    }

    method Drain(now: int) returns (out: seq<Change>, ghost order: seq<Path>)
      modifies this`pending
      ensures IsOrder(order, Quiet(old(Value()), now))
      ensures Value() == ApplyAll(old(Value()), DrainEffects(old(pending), order, now))
      ensures out == Drained(old(pending), order)
    {
      ghost var s := Value();
      var todo := set p | p in pending && Elapsed(now, pending[p].lastSeen) >= DEBOUNCE;
      out, order := [], [];
      while todo != {}
        invariant todo <= Quiet(s, now)
        invariant IsOrder(order, Quiet(s, now) - todo)
        invariant forall p :: p in todo ==> p in pending && pending[p] == s.pending[p]
        invariant Value() == ApplyAll(s, DrainEffects(s.pending, order, now))
        invariant out == Drained(s.pending, order)
        decreases todo
      {
        var p :| p in todo;
        DrainOneMore(s, order, p, now);
        OrderMore(order, Quiet(s, now), todo, p);
        out := out + [pending[p].change];
        todo := todo - {p};
        order := order + [p];
        pending := pending - {p};
      }
    }
  }

  lemma OrderMore<T>(order: seq<T>, elements: set<T>, todo: set<T>, x: T)
    requires IsOrder(order, elements - todo) && x in todo && todo <= elements
    ensures IsOrder(order + [x], elements - (todo - {x}))
  {
    forall y | y in elements - (todo - {x}) ensures y in order + [x] {
      if y != x {
        assert y in elements - todo;
      }
    }
  }

  lemma ApplyOne(s: State, e: Effect)
    ensures ApplyAll(s, [e]) == Apply(s, e)
  {
    assert [e][..0] == [];
  }

  lemma StoreOneMore(s: State, kind: Kind, paths: seq<Path>, i: nat, now: int)
    requires i < |paths|
    ensures ApplyAll(s, StorePaths(kind, paths[..i + 1], now)) ==
              StoreOne(ApplyAll(s, StorePaths(kind, paths[..i], now)), kind, paths[i], now)
  {
    var init, more := paths[..i], paths[..i + 1];
    assert more[..|more| - 1] == init && more[|more| - 1] == paths[i];
    if !kind.Access? {
      var one := Stored(paths[i], ChangeFor(kind, paths[i]).value, now);
      assert StorePaths(kind, more, now) == StorePaths(kind, init, now) + [one];
      ApplyAllConcat(s, StorePaths(kind, init, now), [one]);
      ApplyOne(ApplyAll(s, StorePaths(kind, init, now)), one);
    } else {
      assert StorePaths(kind, init, now) == [] == StorePaths(kind, more, now);
    }
  }

  /** What one path of a notification does to the maps. */
  function StoreOne(s: State, kind: Kind, path: Path, now: int): State {
    var change := ChangeFor(kind, path);
    if change.None? then s else s.(pending := s.pending[path := Pending(change.value, now)])
  }

  lemma ExpireOneMore(s: State, order: seq<nat>, t: nat, now: int)
    requires t in s.halves && forall i :: 0 <= i < |order| ==> order[i] in s.halves
    ensures var before := ApplyAll(s, ExpireEffects(s.halves, order, now));
            var half := s.halves[t];
            ApplyAll(s, ExpireEffects(s.halves, order + [t], now)) ==
              State(before.pending[half.path := Pending(HalfChange(half), now)], before.halves - {t}, before.overflowed)
  {
    var longer := order + [t];
    assert longer[..|longer| - 1] == order;
    var half := s.halves[t];
    var two := [Expired(t, half), Stored(half.path, HalfChange(half), now)];
    var before := ApplyAll(s, ExpireEffects(s.halves, order, now));
    ApplyAllConcat(s, ExpireEffects(s.halves, order, now), two);
    assert two == [two[0]] + [two[1]];
    ApplyAllConcat(before, [two[0]], [two[1]]);
    ApplyOne(before, two[0]);
    ApplyOne(Apply(before, two[0]), two[1]);
  }

  lemma DrainOneMore(s: State, order: seq<Path>, p: Path, now: int)
    requires p in s.pending && forall i :: 0 <= i < |order| ==> order[i] in s.pending
    ensures var before := ApplyAll(s, DrainEffects(s.pending, order, now));
            ApplyAll(s, DrainEffects(s.pending, order + [p], now)) == before.(pending := before.pending - {p})
    ensures Drained(s.pending, order + [p]) == Drained(s.pending, order) + [s.pending[p].change]
  {
    var longer := order + [p];
    assert longer[..|longer| - 1] == order;
    var one := [Emitted(p, s.pending[p].change, now)];
    var before := ApplyAll(s, DrainEffects(s.pending, order, now));
    ApplyAllConcat(s, DrainEffects(s.pending, order, now), one);
    ApplyOne(before, one[0]);
  }

  lemma {:induction false} ApplyAllKeepsFlag(s: State, effects: seq<Effect>)
    ensures ApplyAll(s, effects).overflowed == s.overflowed
  {
    if effects != [] {
      ApplyAllKeepsFlag(s, effects[..|effects| - 1]);
    }
  }

  /** The overflow flag plays no part in the maps. */
  lemma {:induction false} ApplyAllFlag(s: State, effects: seq<Effect>)
    ensures ApplyAll(s.(overflowed := false), effects) == ApplyAll(s, effects).(overflowed := false)
  {
    if effects != [] {
      ApplyAllFlag(s, effects[..|effects| - 1]);
    }
  }
}
