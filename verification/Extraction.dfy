// The durable extraction queue and the worker that drains it: attempt, work, then
// result and dequeue in one transaction.
module Extraction {
  import opened Tables

  const MAX_ATTEMPTS: nat := 5
  const BATCH: nat := 16

  datatype Row = Row(queuedAt: int, attempts: nat)

  /** `file_metadata` (the extractor version of each file's result) and `extraction_queue`. */
  datatype Store = Store(metadata: map<FileId, nat>, queue: map<FileId, Row>)

  // ---------------------------------------------------------- statements

  function Extracted(s: Store, id: FileId, version: nat): Store {
    Store(s.metadata[id := version], s.queue - {id})
  }

  function Enqueued(s: Store, id: FileId, at: int): Store {
    s.(queue := s.queue[id := Row(at, if id in s.queue then s.queue[id].attempts else 0)])
  }

  function Attempted(s: Store, id: FileId): Store {
    if id !in s.queue then s
    else s.(queue := s.queue[id := s.queue[id].(attempts := s.queue[id].attempts + 1)])
  }

  /** Every result older than `version` is queued again; then every live file that has
      neither result nor queue row is queued. */
  function Requeued(s: Store, version: nat, at: int, live: set<FileId>): Store {
    var stale := map id | id in s.metadata && s.metadata[id] < version :: Row(at, 0);
    var queue := s.queue + stale;
    var unseen := map id | id in live && id !in s.metadata && id !in queue :: Row(at, 0);
    s.(queue := queue + unseen)
  }

  predicate Eligible(queue: map<FileId, Row>, id: FileId) {
    id in queue && queue[id].attempts < MAX_ATTEMPTS
  }

  predicate Distinct(ids: seq<FileId>) {
    forall i, j :: 0 <= i < j < |ids| ==> ids[i] != ids[j]
  }

  /** A right answer of the pending query: eligible rows, oldest first, ties in any order,
      and none older left out. */
  ghost predicate IsPending(queue: map<FileId, Row>, limit: nat, ids: seq<FileId>) {
    && Distinct(ids) && |ids| <= limit
    && (forall i :: 0 <= i < |ids| ==> Eligible(queue, ids[i]))
    && (forall i, j :: 0 <= i < j < |ids| ==> queue[ids[i]].queuedAt <= queue[ids[j]].queuedAt)
    && (forall id :: Eligible(queue, id) && id !in ids ==>
          |ids| == limit && forall i :: 0 <= i < |ids| ==> queue[ids[i]].queuedAt <= queue[id].queuedAt)
  }

  /** Requeueing gives a stale file, and a live one with neither result nor row, all its
      attempts from `at` on, and touches nothing else: what is offered afterwards is these
      and what was offered before. */
  lemma RequeueOffers(s: Store, version: nat, at: int, live: set<FileId>, id: FileId)
    ensures var t := Requeued(s, version, at, live);
            var stale := id in s.metadata && s.metadata[id] < version;
            var unseen := id in live && id !in s.metadata && id !in s.queue;
            && t.metadata == s.metadata
            && (id in t.queue <==> stale || unseen || id in s.queue)
            && (id in t.queue ==> t.queue[id] == if stale || unseen then Row(at, 0) else s.queue[id])
            && (Eligible(t.queue, id) <==> stale || unseen || (id in s.queue && s.queue[id].attempts < 5))
  {
    var stale := map other | other in s.metadata && s.metadata[other] < version :: Row(at, 0);
    assert id in s.queue + stale <==> id in s.queue || id in stale;
  }

  /** What an extraction records decides the next requeue: the file is queued again exactly
      for a newer extractor. */
  lemma ExtractedUntilNewer(s: Store, id: FileId, version: nat, next: nat, at: int, live: set<FileId>)
    ensures id in Requeued(Extracted(s, id, version), next, at, live).queue <==> version < next
    ensures forall other :: other != id ==>
              (other in Extracted(s, id, version).queue <==> other in s.queue)
              && (other in s.queue ==> Extracted(s, id, version).queue[other] == s.queue[other])
  {
    RequeueOffers(Extracted(s, id, version), next, at, live, id);
  }

  /** A file queued again goes to the back with the attempts it has already had. */
  lemma EnqueuedGoesLast(s: Store, id: FileId, at: int, limit: nat, ids: seq<FileId>)
    requires forall other :: other in s.queue ==> s.queue[other].queuedAt < at
    requires IsPending(Enqueued(s, id, at).queue, limit, ids)
    ensures id in ids ==> ids[|ids| - 1] == id
    ensures id in ids <==> (id !in s.queue || s.queue[id].attempts < 5) && (|ids| < limit || (limit > 0 && ids[limit - 1] == id))
  {
    var queue := Enqueued(s, id, at).queue;
    forall i | 0 <= i < |ids| - 1 ensures ids[i] != id {
      assert queue[ids[i]].queuedAt <= queue[ids[|ids| - 1]].queuedAt;
    }
  }

  // --------------------------------------------------------------- budget

  function Left(row: Row): nat {
    if row.attempts < MAX_ATTEMPTS then MAX_ATTEMPTS - row.attempts else 0
  }

  /** How many attempts the queue still has. */
  ghost function Budget(queue: map<FileId, Row>): nat
    decreases |queue|
  {
    if queue == map[] then 0 else
    var id :| id in queue;
    Left(queue[id]) + Budget(queue - {id})
  }

  lemma {:induction false} BudgetWithout(queue: map<FileId, Row>, id: FileId)
    requires id in queue
    ensures Budget(queue) == Left(queue[id]) + Budget(queue - {id})
    decreases |queue|
  {
    var pick :| pick in queue && Budget(queue) == Left(queue[pick]) + Budget(queue - {pick});
    if pick != id {
      BudgetWithout(queue - {pick}, id);
      BudgetWithout(queue - {id}, pick);
      assert queue - {pick} - {id} == queue - {id} - {pick};
    }
  }

  lemma {:induction false} BudgetBound(queue: map<FileId, Row>)
    ensures Budget(queue) <= MAX_ATTEMPTS * |queue|
    decreases |queue|
  {
    if queue != map[] {
      var id :| id in queue;
      BudgetWithout(queue, id);
      BudgetBound(queue - {id});
      assert |queue - {id}| == |queue| - 1;
    }
  }

  /** An attempt on an eligible file spends one unit, whatever comes of it. */
  lemma AttemptSpends(s: Store, id: FileId, version: nat)
    requires Eligible(s.queue, id)
    ensures Budget(Attempted(s, id).queue) == Budget(s.queue) - 1
    ensures Budget(Extracted(Attempted(s, id), id, version).queue) < Budget(s.queue)
  {
    var after := Attempted(s, id).queue;
    BudgetWithout(s.queue, id);
    BudgetWithout(after, id);
    assert after - {id} == s.queue - {id};
  }

  // -------------------------------------------------------------- the worker

  class Queue {
    var metadata: map<FileId, nat>
    var queue: map<FileId, Row>

    ghost function State(): Store
      reads this
    {
      Store(metadata, queue)
    }

    constructor ()
      ensures State() == Store(map[], map[])
    {
      metadata, queue := map[], map[];
    }

    method Enqueue(id: FileId, at: int)
      modifies this
      ensures State() == Enqueued(old(State()), id, at)
    {
      queue := queue[id := Row(at, if id in queue then queue[id].attempts else 0)];
    }

    method RecordAttempt(id: FileId)
      modifies this
      ensures State() == Attempted(old(State()), id)
    {
      if id in queue {
        queue := queue[id := queue[id].(attempts := queue[id].attempts + 1)];
      }
    }

    /** Result and dequeue in one transaction. */
    method RecordExtraction(id: FileId, version: nat)
      modifies this
      ensures State() == Extracted(old(State()), id, version)
    {
      metadata, queue := metadata[id := version], queue - {id};
    }

    method RequeueStale(version: nat, at: int, live: set<FileId>) returns (changed: nat)
      modifies this
      ensures State() == Requeued(old(State()), version, at, live)
      ensures changed == |set id | id in metadata && metadata[id] < version|
                         + |set id | id in live && id !in metadata && id !in old(queue)|
    {
      var stale := map id | id in metadata && metadata[id] < version :: Row(at, 0);
      assert stale.Keys == set id | id in metadata && metadata[id] < version;
      var unseen := map id | id in live && id !in metadata && id !in queue + stale :: Row(at, 0);
      assert unseen.Keys == set id | id in live && id !in metadata && id !in queue;
      changed := |stale.Keys| + |unseen.Keys|;
      queue := queue + stale + unseen;
    }

    method Pending(limit: nat) returns (ids: seq<FileId>)
      ensures IsPending(queue, limit, ids)
    {
      var rest := set id | id in queue && queue[id].attempts < MAX_ATTEMPTS;
      ids := [];
      while rest != {} && |ids| < limit
        invariant |ids| <= limit && Distinct(ids)
        invariant forall i :: 0 <= i < |ids| ==> Eligible(queue, ids[i]) && ids[i] !in rest
        invariant forall id :: id in rest ==> Eligible(queue, id)
        invariant forall id :: Eligible(queue, id) ==> id in rest || id in ids
        invariant forall i, j :: 0 <= i < j < |ids| ==> queue[ids[i]].queuedAt <= queue[ids[j]].queuedAt
        invariant forall i, id :: 0 <= i < |ids| && id in rest ==> queue[ids[i]].queuedAt <= queue[id].queuedAt
        decreases rest
      {
        var next := Oldest(rest);
        ids := ids + [next];
        rest := rest - {next};
      }
    }

    method Oldest(rest: set<FileId>) returns (oldest: FileId)
      requires rest != {} && forall id :: id in rest ==> id in queue
      ensures oldest in rest && forall id :: id in rest ==> queue[oldest].queuedAt <= queue[id].queuedAt
    {
      oldest :| oldest in rest;
      var todo := rest - {oldest};
      while todo != {}
        invariant todo <= rest && oldest in rest
        invariant forall id :: id in rest - todo ==> queue[oldest].queuedAt <= queue[id].queuedAt
        decreases todo
      {
        var id :| id in todo;
        if queue[id].queuedAt < queue[oldest].queuedAt {
          oldest := id;
        }
        todo := todo - {id};
      }
    }

    /** The attempt is on record before the work starts. */
    method ProcessOne(id: FileId, extracts: bool, version: nat)
      modifies this
      ensures State() == (if extracts then Extracted(Attempted(old(State()), id), id, version) else Attempted(old(State()), id))
    {
      RecordAttempt(id);
      if extracts {
        RecordExtraction(id, version);
      }
    }

    /** The worker loop until its queue offers nothing, with nothing newly queued:
        `extracts(id, n)` says whether the n-th extraction, of file `id`, succeeds. It ends
        within the attempts there were; what is left has spent its own; the files started on
        are exactly those that had attempts left; and a file that extracts is extracted,
        whatever failed before it in the queue. */
    method RunUntilIdle(extracts: (FileId, nat) -> bool, version: nat) returns (steps: nat, ghost started: seq<FileId>)
      modifies this
      ensures |started| == steps && forall id :: id in started <==> Eligible(old(queue), id)
      ensures steps <= 5 * |old(queue)|
      ensures forall id :: id in queue ==> queue[id].attempts >= 5
      ensures old(metadata).Keys <= metadata.Keys
      ensures old(queue).Keys <= queue.Keys + metadata.Keys
      ensures forall id :: Eligible(old(queue), id) && (forall n :: extracts(id, n)) ==> id !in queue && id in metadata
    {
      BudgetBound(queue);
      steps, started := 0, [];
      var ids := Pending(BATCH);
      while ids != []
        invariant IsPending(queue, BATCH, ids)
        invariant |started| == steps && Tried(old(queue), queue, started)
        invariant Budget(queue) + steps <= Budget(old(queue))
        invariant Kept(old(State()), State(), extracts)
        decreases Budget(queue)
      {
        steps, started := ProcessBatch(ids, extracts, version, steps, old(State()), started);
        ids := Pending(BATCH);
      }
      forall id | id in queue ensures queue[id].attempts >= MAX_ATTEMPTS {
        assert Eligible(queue, id) ==> id in ids;
      }
    }

    /** One polled batch, file after file. */
    method ProcessBatch(ids: seq<FileId>, extracts: (FileId, nat) -> bool, version: nat, done: nat,
                        ghost before: Store, ghost sofar: seq<FileId>)
      returns (steps: nat, ghost started: seq<FileId>)
      requires IsPending(queue, BATCH, ids) && ids != []
      requires Kept(before, State(), extracts) && |sofar| == done && Tried(before.queue, queue, sofar)
      modifies this
      ensures |started| == steps && Tried(before.queue, queue, started)
      ensures Budget(queue) + steps <= Budget(old(queue)) + done
      ensures Budget(queue) < Budget(old(queue))
      ensures Kept(before, State(), extracts)
    {
      steps, started := done, sofar;
      var i := 0;
      while i < |ids|
        invariant 0 <= i <= |ids|
        invariant forall j :: i <= j < |ids| ==> Eligible(queue, ids[j])
        invariant Budget(queue) + steps <= Budget(old(queue)) + done
        invariant Budget(queue) <= Budget(old(queue)) && (i > 0 ==> Budget(queue) < Budget(old(queue)))
        invariant Kept(before, State(), extracts) && |started| == steps && Tried(before.queue, queue, started)
      {
        var id := ids[i];
        TriedOneMore(before.queue, State(), started, id, version);
        AttemptSpends(State(), id, version);
        KeptByOne(before, State(), id, extracts, steps, version);
        ProcessOne(id, extracts(id, steps), version);
        steps, started := steps + 1, started + [id];
        i := i + 1;
      }
    }
  }

  /** The files started on, and those still to come, are the ones that had attempts left. */
  ghost predicate Tried(before: map<FileId, Row>, queue: map<FileId, Row>, started: seq<FileId>) {
    forall id :: id in started || Eligible(queue, id) <==> Eligible(before, id)
  }

  lemma TriedOneMore(before: map<FileId, Row>, s: Store, started: seq<FileId>, id: FileId, version: nat)
    requires Tried(before, s.queue, started) && Eligible(s.queue, id)
    ensures Tried(before, Attempted(s, id).queue, started + [id])
    ensures Tried(before, Extracted(Attempted(s, id), id, version).queue, started + [id])
  {
    forall other
      ensures other in started + [id] || Eligible(Attempted(s, id).queue, other) <==> Eligible(before, other)
      ensures other in started + [id] || Eligible(Extracted(Attempted(s, id), id, version).queue, other) <==> Eligible(before, other)
    {
      assert other in started || Eligible(s.queue, other) <==> Eligible(before, other);
    }
  }

  lemma KeptByOne(before: Store, s: Store, id: FileId, extracts: (FileId, nat) -> bool, n: nat, version: nat)
    requires Kept(before, s, extracts) && Eligible(s.queue, id)
    ensures extracts(id, n) ==> Kept(before, Extracted(Attempted(s, id), id, version), extracts)
    ensures !extracts(id, n) ==> Kept(before, Attempted(s, id), extracts)
  {
  }

  /** No file is lost, and one that always extracts is either still owed an attempt or done. */
  ghost predicate Kept(before: Store, after: Store, extracts: (FileId, nat) -> bool) {
    && before.metadata.Keys <= after.metadata.Keys
    && before.queue.Keys <= after.queue.Keys + after.metadata.Keys
    && forall id :: Eligible(before.queue, id) && (forall n :: extracts(id, n)) ==>
         Eligible(after.queue, id) || (id !in after.queue && id in after.metadata)
  }
}
