// The queue, the worker and the observer together: every interleaving of enqueues,
// startup requeues, polls, attempts, successes, failures, kills and restarts.
module ExtractionRuns {
  import opened Tables
  import opened Extraction

  /** The worker's memory, lost with its process: what it polled, and what it works on. */
  datatype Worker = Down | Polled(todo: seq<FileId>) | Working(id: FileId, todo: seq<FileId>)

  datatype System = System(store: Store, worker: Worker)

  datatype Action =
    | Enqueue(id: FileId, at: int)
    | RequeueStale(version: nat, at: int, live: set<FileId>)
    | Start
    | Poll(ids: seq<FileId>)
    | Attempt
    | Succeed(version: nat)
    | Fail
    | Kill

  ghost predicate Next(s: System, a: Action, t: System) {
    match a
    case Enqueue(id, at) => t == s.(store := Enqueued(s.store, id, at))
    case RequeueStale(version, at, live) => t == s.(store := Requeued(s.store, version, at, live))
    case Start => s.worker.Down? && t == s.(worker := Polled([]))
    case Poll(ids) => s.worker == Polled([]) && IsPending(s.store.queue, BATCH, ids) && t == s.(worker := Polled(ids))
    case Attempt =>
      && s.worker.Polled? && s.worker.todo != []
      && t == System(Attempted(s.store, s.worker.todo[0]), Working(s.worker.todo[0], s.worker.todo[1..]))
    case Succeed(version) =>
      s.worker.Working? && t == System(Extracted(s.store, s.worker.id, version), Polled(s.worker.todo))
    case Fail => s.worker.Working? && t == s.(worker := Polled(s.worker.todo))
    case Kill => t == s.(worker := Down)
  }

  ghost predicate Run(states: seq<System>, actions: seq<Action>) {
    && |states| == |actions| + 1
    && states[0] == System(Store(map[], map[]), Down)
    && forall k :: 0 <= k < |actions| ==> Next(states[k], actions[k], states[k + 1])
  }

  // -------------------------------------------------------------- invariant

  ghost predicate Inv(s: System) {
    && (forall id :: id in s.store.queue ==> s.store.queue[id].attempts <= MAX_ATTEMPTS)
    && match s.worker
       case Down => true
       case Polled(todo) => Offered(s.store.queue, todo)
       case Working(id, todo) => id in s.store.queue && id !in todo && Offered(s.store.queue, todo)
  }

  /** Files polled and not yet tried: distinct, and still owed an attempt. */
  ghost predicate Offered(queue: map<FileId, Row>, todo: seq<FileId>) {
    Distinct(todo) && forall i :: 0 <= i < |todo| ==> Eligible(queue, todo[i])
  }

  lemma NextInv(s: System, a: Action, t: System)
    requires Inv(s) && Next(s, a, t)
    ensures Inv(t)
  {
    if a.Attempt? {
      var todo := s.worker.todo;
      assert forall i :: 0 <= i < |todo[1..]| ==> todo[1..][i] == todo[i + 1];
    }
  }

  lemma {:induction false} RunInv(states: seq<System>, actions: seq<Action>, k: nat)
    requires Run(states, actions) && k < |states|
    ensures Inv(states[k])
  {
    if k > 0 {
      RunInv(states, actions, k - 1);
      NextInv(states[k - 1], actions[k - 1], states[k]);
    }
  }

  // ------------------------------------------------------------ conservation

  /** The files the queue has been made responsible for. */
  function Tracked(actions: seq<Action>): set<FileId> {
    if actions == [] then {} else
    var last := actions[|actions| - 1];
    Tracked(actions[..|actions| - 1]) + (if last.Enqueue? then {last.id} else if last.RequeueStale? then last.live else {})
  }

  lemma NextKeeps(s: System, a: Action, t: System)
    requires Inv(s) && Next(s, a, t)
    ensures s.store.metadata.Keys + s.store.queue.Keys <= t.store.metadata.Keys + t.store.queue.Keys
    ensures a.Enqueue? ==> a.id in t.store.queue
    ensures a.RequeueStale? ==> a.live <= t.store.metadata.Keys + t.store.queue.Keys
  {
  }

  /** No interleaving loses a file: each is extracted or still queued. */
  lemma {:induction false} NothingLost(states: seq<System>, actions: seq<Action>, k: nat)
    requires Run(states, actions) && k < |states|
    ensures Tracked(actions[..k]) <= states[k].store.metadata.Keys + states[k].store.queue.Keys
  {
    if k > 0 {
      NothingLost(states, actions, k - 1);
      RunInv(states, actions, k - 1);
      NextKeeps(states[k - 1], actions[k - 1], states[k]);
      assert actions[..k][..k - 1] == actions[..k - 1];
    } else {
      assert actions[..0] == [];
    }
  }

  // ------------------------------------------------------------ retry bound

  /** The action gives the file a clean slate: its extraction succeeds, or its result is stale. */
  predicate Resets(s: System, a: Action, id: FileId) {
    || (a.Succeed? && s.worker.Working? && s.worker.id == id)
    || (a.RequeueStale? && id in s.store.metadata && s.store.metadata[id] < a.version)
  }

  predicate StartsOn(s: System, a: Action, id: FileId) {
    a.Attempt? && s.worker.Polled? && s.worker.todo != [] && s.worker.todo[0] == id
  }

  /** Extractions of `id` started by the actions from `i` on, up to `j`. */
  function Starts(states: seq<System>, actions: seq<Action>, i: nat, j: nat, id: FileId): nat
    requires i <= j <= |actions| && |states| == |actions| + 1
  {
    if i == j then 0
    else Starts(states, actions, i, j - 1, id) + (if StartsOn(states[j - 1], actions[j - 1], id) then 1 else 0)
  }

  function Spent(s: System, id: FileId): nat {
    if id in s.store.queue then s.store.queue[id].attempts else 0
  }

  lemma NextSpends(s: System, a: Action, t: System, id: FileId)
    requires Inv(s) && Next(s, a, t) && !Resets(s, a, id)
    ensures Spent(t, id) >= Spent(s, id) + (if StartsOn(s, a, id) then 1 else 0)
  {
    if StartsOn(s, a, id) {
      assert Eligible(s.store.queue, s.worker.todo[0]);
    }
  }

  lemma {:induction false} StartsAreSpent(states: seq<System>, actions: seq<Action>, i: nat, j: nat, id: FileId)
    requires Run(states, actions) && i <= j <= |actions|
    requires forall k :: i <= k < j ==> !Resets(states[k], actions[k], id)
    ensures Spent(states[i], id) + Starts(states, actions, i, j, id) <= Spent(states[j], id)
    decreases j
  {
    if i < j {
      StartsAreSpent(states, actions, i, j - 1, id);
      RunInv(states, actions, j - 1);
      NextSpends(states[j - 1], actions[j - 1], states[j], id);
    }
  }

  /** Between two resets of a file at most five extractions of it start, killed ones included. */
  lemma AtMostFiveStarts(states: seq<System>, actions: seq<Action>, i: nat, j: nat, id: FileId)
    requires Run(states, actions) && i <= j <= |actions|
    requires forall k :: i <= k < j ==> !Resets(states[k], actions[k], id)
    ensures Starts(states, actions, i, j, id) <= 5
  {
    StartsAreSpent(states, actions, i, j, id);
    RunInv(states, actions, j);
  }

  // ------------------------------------------------- which requests are served

  predicate WorksOn(s: System, id: FileId) {
    s.worker.Working? && s.worker.id == id
  }

  predicate StartedBetween(states: seq<System>, actions: seq<Action>, i: nat, k: nat, id: FileId)
    requires |states| == |actions| + 1
  {
    exists j :: i <= j < k && j < |actions| && StartsOn(states[j], actions[j], id)
  }

  /** `actions` lead from `states[0]` through `states`, whatever came before. */
  ghost predicate Follows(states: seq<System>, actions: seq<Action>) {
    |states| == |actions| + 1 && forall k :: 0 <= k < |actions| ==> Next(states[k], actions[k], states[k + 1])
  }

  lemma NextWaits(s: System, a: Action, t: System, id: FileId)
    requires Inv(s) && Next(s, a, t) && id in s.store.queue && !WorksOn(s, id) && !StartsOn(s, a, id)
    ensures id in t.store.queue && !WorksOn(t, id) && (Spent(t, id) == Spent(s, id) || Spent(t, id) == 0)
  {
  }

  /** A queued file that is not being extracted stays queued until an extraction of it
      starts, and until then its attempts do not grow. */
  lemma {:induction false} QueuedUntilStarted(states: seq<System>, actions: seq<Action>, k: nat, id: FileId)
    requires Follows(states, actions) && k < |states| && Inv(states[0])
    requires id in states[0].store.queue && !WorksOn(states[0], id) && !StartedBetween(states, actions, 0, k, id)
    ensures Inv(states[k]) && id in states[k].store.queue && !WorksOn(states[k], id)
    ensures Spent(states[k], id) <= Spent(states[0], id)
  {
    if k > 0 {
      QueuedUntilStarted(states, actions, k - 1, id);
      NextInv(states[k - 1], actions[k - 1], states[k]);
      NextWaits(states[k - 1], actions[k - 1], states[k], id);
    }
  }

  /** A request made while its file is not being extracted: at every later point the file is
      still queued, or an extraction of it has started since. */
  lemma RequestKept(states: seq<System>, actions: seq<Action>, i: nat, k: nat, id: FileId)
    requires Run(states, actions) && i < k < |states|
    requires actions[i].Enqueue? && actions[i].id == id && !WorksOn(states[i], id)
    ensures id in states[k].store.queue || StartedBetween(states, actions, i + 1, k, id)
  {
    if !StartedBetween(states, actions, i + 1, k, id) {
      assert Next(states[i], actions[i], states[i + 1]);
      WaitsFrom(states, actions, i + 1, k, id);
    }
  }

  /** From a requeue on, a file whose result is stale, or that is live with neither result
      nor row, has all its attempts until an extraction of it starts. */
  lemma RequeuedUntilStarted(states: seq<System>, actions: seq<Action>, i: nat, k: nat, id: FileId)
    requires Run(states, actions) && i < k < |states| && actions[i].RequeueStale? && !WorksOn(states[i], id)
    requires var store := states[i].store;
             || (id in store.metadata && store.metadata[id] < actions[i].version)
             || (id in actions[i].live && id !in store.metadata && id !in store.queue)
    ensures StartedBetween(states, actions, i + 1, k, id)
            || (id in states[k].store.queue && states[k].store.queue[id].attempts == 0)
  {
    assert Next(states[i], actions[i], states[i + 1]);
    RequeueOffers(states[i].store, actions[i].version, actions[i].at, actions[i].live, id);
    if !StartedBetween(states, actions, i + 1, k, id) {
      WaitsFrom(states, actions, i + 1, k, id);
    }
  }

  lemma WaitsFrom(states: seq<System>, actions: seq<Action>, i: nat, k: nat, id: FileId)
    requires Run(states, actions) && i <= k < |states| && id in states[i].store.queue && !WorksOn(states[i], id)
    requires !StartedBetween(states, actions, i, k, id)
    ensures id in states[k].store.queue && Spent(states[k], id) <= Spent(states[i], id)
  {
    var later, done := states[i..], actions[i..];
    RunInv(states, actions, i);
    FollowsFrom(states, actions, i);
    forall j | 0 <= j < k - i ensures !StartsOn(later[j], done[j], id) {
      assert !StartsOn(states[i + j], actions[i + j], id);
    }
    QueuedUntilStarted(later, done, k - i, id);
  }

  lemma FollowsFrom(states: seq<System>, actions: seq<Action>, i: nat)
    requires Run(states, actions) && i <= |actions|
    ensures Follows(states[i..], actions[i..])
  {
    forall k | 0 <= k < |actions[i..]| ensures Next(states[i..][k], actions[i..][k], states[i..][k + 1]) {
      assert Next(states[i + k], actions[i + k], states[i + k + 1]);
    }
  }

  predicate EndsWork(a: Action) {
    a.Succeed? || a.Fail? || a.Kill?
  }

  /** While an extraction is under way no other starts and its file stays queued. */
  lemma {:induction false} StillWorking(states: seq<System>, actions: seq<Action>, i: nat, k: nat, id: FileId)
    requires Run(states, actions) && i <= k < |states| && WorksOn(states[i], id)
    requires forall j :: i <= j < k ==> !EndsWork(actions[j])
    ensures WorksOn(states[k], id) && id in states[k].store.queue && Starts(states, actions, i, k, id) == 0
  {
    RunInv(states, actions, k);
    if i < k {
      StillWorking(states, actions, i, k - 1, id);
      assert Next(states[k - 1], actions[k - 1], states[k]);
    }
  }

  /** A request made while its file is being extracted hangs on how that extraction ends: a
      success takes it off the queue with no extraction started since, a failure or a kill
      leaves it there. */
  lemma RequestDuringExtraction(states: seq<System>, actions: seq<Action>, i: nat, k: nat, id: FileId)
    requires Run(states, actions) && i < k < |actions|
    requires actions[i].Enqueue? && actions[i].id == id && WorksOn(states[i], id)
    requires EndsWork(actions[k]) && forall j :: i <= j < k ==> !EndsWork(actions[j])
    ensures id in states[k + 1].store.queue <==> !actions[k].Succeed?
    ensures Starts(states, actions, i, k + 1, id) == 0
  {
    StillWorking(states, actions, i, k, id);
    assert Next(states[k], actions[k], states[k + 1]);
  }

  /** A request for a file that has spent its attempts starts nothing until a reset. */
  lemma SpentRequestParked(states: seq<System>, actions: seq<Action>, i: nat, k: nat, id: FileId)
    requires Run(states, actions) && i < k < |states|
    requires actions[i].Enqueue? && actions[i].id == id && Spent(states[i], id) >= 5
    requires forall j :: i <= j < k ==> !Resets(states[j], actions[j], id)
    ensures Starts(states, actions, i, k, id) == 0
  {
    StartsAreSpent(states, actions, i, k, id);
    RunInv(states, actions, k);
  }

  /** However things go on after the request, by the time the queue no longer offers the
      file, as it does not once the worker's loop has run idle, an extraction of it has
      started. */
  ghost predicate Served(s: System, id: FileId, at: int) {
    forall states: seq<System>, actions: seq<Action> ::
      Follows(states, actions) && states[0] == s.(store := Enqueued(s.store, id, at))
      && !Eligible(states[|actions|].store.queue, id)
      ==> StartedBetween(states, actions, 0, |actions|, id)
  }

  /** A request is served exactly when, as it is made, the file is not being extracted and
      has attempts left. */
  lemma ServedIff(s: System, id: FileId, at: int)
    requires Inv(s)
    ensures Served(s, id, at) <==> !WorksOn(s, id) && Spent(s, id) < 5
  {
    var asked := s.(store := Enqueued(s.store, id, at));
    NextInv(s, Enqueue(id, at), asked);
    if !WorksOn(s, id) && Spent(s, id) < MAX_ATTEMPTS {
      forall states: seq<System>, actions: seq<Action> | Follows(states, actions) && states[0] == asked
                               && !Eligible(states[|actions|].store.queue, id)
        ensures StartedBetween(states, actions, 0, |actions|, id)
      {
        if !StartedBetween(states, actions, 0, |actions|, id) {
          QueuedUntilStarted(states, actions, |actions|, id);
          assert false;
        }
      }
    } else if WorksOn(s, id) {
      var done := System(Extracted(asked.store, id, 0), Polled(s.worker.todo));
      var states, actions := [asked, done], [Succeed(0)];
      assert Follows(states, actions) && !Eligible(states[|actions|].store.queue, id);
      assert !StartedBetween(states, actions, 0, |actions|, id);
    } else {
      var states, actions: seq<Action> := [asked], [];
      assert Follows(states, actions) && !Eligible(states[|actions|].store.queue, id);
      assert !StartedBetween(states, actions, 0, |actions|, id);
    }
  }

  // -------------------------------------------------------- reachable cases

  lemma Extend(states: seq<System>, actions: seq<Action>, a: Action, t: System)
    requires Run(states, actions) && Next(states[|actions|], a, t)
    ensures Run(states + [t], actions + [a])
  {
  }

  /** A poll that offers the only file, and the attempt at it. */
  lemma TryOnce(states: seq<System>, actions: seq<Action>, id: FileId, row: Row) returns (tried: seq<System>, taken: seq<Action>)
    requires Run(states, actions) && states[|actions|] == System(Store(map[], map[id := row]), Polled([]))
    requires row.attempts < MAX_ATTEMPTS
    ensures Run(tried, taken)
    ensures tried[|taken|] == System(Store(map[], map[id := row.(attempts := row.attempts + 1)]), Working(id, []))
  {
    var store := states[|actions|].store;
    assert IsPending(store.queue, BATCH, [id]);
    var polled := System(store, Polled([id]));
    Extend(states, actions, Poll([id]), polled);
    tried, taken := states + [polled], actions + [Poll([id])];
    var started := System(Attempted(store, id), Working(id, []));
    assert [id][1..] == [];
    Extend(tried, taken, Attempt, started);
    tried, taken := tried + [started], taken + [Attempt];
  }

  /** A run in which the file has failed `n` times. */
  lemma {:induction false} FailedRun(id: FileId, n: nat) returns (states: seq<System>, actions: seq<Action>)
    requires n <= MAX_ATTEMPTS
    ensures Run(states, actions)
    ensures states[|actions|] == System(Store(map[], map[id := Row(0, n)]), Polled([]))
  {
    if n == 0 {
      var empty := System(Store(map[], map[]), Down);
      var queued := System(Store(map[], map[id := Row(0, 0)]), Down);
      states, actions := [empty, queued, queued.(worker := Polled([]))], [Enqueue(id, 0), Start];
    } else {
      states, actions := FailedRun(id, n - 1);
      states, actions := TryOnce(states, actions, id, Row(0, n - 1));
      var failed := System(states[|actions|].store, Polled([]));
      Extend(states, actions, Fail, failed);
      states, actions := states + [failed], actions + [Fail];
    }
  }

  /** Both ways of missing a request can be reached: one made during an extraction that then
      succeeds, and one made after five failures. */
  lemma UnservedRequestsReachable(id: FileId, at: int)
    ensures exists states: seq<System>, actions: seq<Action> :: Run(states, actions) && WorksOn(states[|actions|], id)
              && !Served(states[|actions|], id, at)
    ensures exists states: seq<System>, actions: seq<Action> :: Run(states, actions) && states[|actions|].worker == Polled([])
              && !Served(states[|actions|], id, at)
  {
    var states, actions := FailedRun(id, 0);
    states, actions := TryOnce(states, actions, id, Row(0, 0));
    RunInv(states, actions, |actions|);
    ServedIff(states[|actions|], id, at);
    var failed, tried := FailedRun(id, MAX_ATTEMPTS);
    RunInv(failed, tried, |tried|);
    ServedIff(failed[|tried|], id, at);
  }
}
