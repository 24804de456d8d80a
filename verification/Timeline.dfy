// Reading the log: the timeline query, following its cursor page by page, and the
// latest event of each of a list of files.
module Timeline {
  import opened Tables

  const MAX_LIMIT: nat := 500
  const DEFAULT_LIMIT: nat := 50

  /** What paging depends on in an event. */
  datatype Entry = Entry(id: int, at: int)

  function EffectiveLimit(limit: Option<nat>): (n: nat)
    ensures 1 <= n <= MAX_LIMIT
    ensures limit.None? ==> n == 50
    ensures limit.Some? && 1 <= limit.value <= 500 ==> n == limit.value
    ensures limit.Some? ==> (n < limit.value ==> n == 500) && (n > limit.value ==> n == 1)
  {
    var n := if limit.Some? then limit.value else DEFAULT_LIMIT;
    if n < 1 then 1 else if n > MAX_LIMIT then MAX_LIMIT else n
  }

  // --------------------------------------------------------------- the query

  /** `ORDER BY at_unix_ms DESC, id DESC`: `a` comes strictly before `b`. */
  predicate Before(a: Entry, b: Entry) {
    a.at > b.at || (a.at == b.at && a.id > b.id)
  }

  /** Ids as the log assigns them: increasing. */
  predicate IsLog(log: seq<Entry>) {
    forall i, j :: 0 <= i < j < |log| ==> log[i].id < log[j].id
  }

  function Insert(e: Entry, sorted: seq<Entry>): seq<Entry> {
    if sorted == [] || Before(e, sorted[0]) then [e] + sorted else [sorted[0]] + Insert(e, sorted[1..])
  }

  function Sorted(log: seq<Entry>): seq<Entry> {
    if log == [] then [] else Insert(log[|log| - 1], Sorted(log[..|log| - 1]))
  }

  function Older(log: seq<Entry>, before: Option<int>): seq<Entry> {
    if log == [] then [] else
    var last := log[|log| - 1];
    Older(log[..|log| - 1], before) + (if before.Some? && last.id >= before.value then [] else [last])
  }

  function Take(s: seq<Entry>, n: nat): seq<Entry> {
    if |s| <= n then s else s[..n]
  }

  function Page(log: seq<Entry>, before: Option<int>, limit: Option<nat>): seq<Entry> {
    Take(Sorted(Older(log, before)), EffectiveLimit(limit))
  }

  predicate IsSorted(s: seq<Entry>) {
    forall i, j :: 0 <= i < j < |s| ==> Before(s[i], s[j])
  }

  lemma {:induction false} InsertFacts(e: Entry, sorted: seq<Entry>)
    requires IsSorted(sorted) && forall x :: x in sorted ==> x.id != e.id
    ensures IsSorted(Insert(e, sorted)) && multiset(Insert(e, sorted)) == multiset{e} + multiset(sorted)
  {
    if sorted != [] && !Before(e, sorted[0]) {
      var first, others := sorted[0], sorted[1..];
      var rest := Insert(e, others);
      assert sorted == [first] + others;
      InsertFacts(e, others);
      forall x | x in rest ensures Before(first, x) {
        assert x in multiset(rest);
        assert x == e || x in others;
        assert first in sorted;
      }
      AheadOfAll(first, rest);
    } else {
      forall x | x in sorted ensures Before(e, x) {
        assert Before(e, sorted[0]);
      }
      AheadOfAll(e, sorted);
    }
  }

  lemma AheadOfAll(first: Entry, rest: seq<Entry>)
    requires IsSorted(rest) && forall x :: x in rest ==> Before(first, x)
    ensures IsSorted([first] + rest)
  {
  }

  /** The query returns the log's entries, each once, most recent first. */
  lemma {:induction false} SortedFacts(log: seq<Entry>)
    requires IsLog(log)
    ensures IsSorted(Sorted(log)) && multiset(Sorted(log)) == multiset(log)
  {
    if log != [] {
      var init, last := log[..|log| - 1], log[|log| - 1];
      assert log == init + [last];
      SortedFacts(init);
      OtherIds(log, Sorted(init));
      InsertFacts(last, Sorted(init));
    }
  }

  lemma OtherIds(log: seq<Entry>, sorted: seq<Entry>)
    requires IsLog(log) && log != [] && multiset(sorted) == multiset(log[..|log| - 1])
    ensures forall x :: x in sorted ==> x.id != log[|log| - 1].id
  {
    forall x | x in sorted ensures x.id != log[|log| - 1].id {
      assert x in multiset(sorted);
      assert x in log[..|log| - 1];
    }
  }

  // -------------------------------------------------------------- pagination

  /** A client that asks for pages of its own sizes, each time handing back the id of the
      last entry it got, until a page comes back empty. */
  method Paginate(log: seq<Entry>, sizes: nat -> Option<nat>) returns (all: seq<Entry>)
    requires IsLog(log)
    ensures all == Followed(log, None, sizes, 0)
  {
    all := [];
    var before: Option<int> := None;
    var n := 0;
    var page := Page(log, before, sizes(n));
    ghost var rest := Followed(log, None, sizes, 0);
    assert all + rest == rest;
    while page != []
      invariant page == Page(log, before, sizes(n)) && rest == Followed(log, before, sizes, n)
      invariant all + rest == Followed(log, None, sizes, 0)
      decreases |Older(log, before)|
    {
      FollowedStep(log, before, sizes, n);
      before := Some(page[|page| - 1].id);
      n := n + 1;
      ghost var after := Followed(log, before, sizes, n);
      Regroup(all, page, after);
      all, rest := all + page, after;
      page := Page(log, before, sizes(n));
    }
    assert rest == [];
  }

  lemma Regroup(a: seq<Entry>, b: seq<Entry>, c: seq<Entry>)
    ensures a + (b + c) == a + b + c
  {
  }

  /** The pages after a cursor, one after another. */
  ghost function Followed(log: seq<Entry>, before: Option<int>, sizes: nat -> Option<nat>, n: nat): seq<Entry>
    requires IsLog(log)
    decreases |Older(log, before)|
  {
    var page := Page(log, before, sizes(n));
    if page == [] then [] else
    CursorMoves(log, before, sizes(n));
    page + Followed(log, Some(page[|page| - 1].id), sizes, n + 1)
  }

  lemma FollowedStep(log: seq<Entry>, before: Option<int>, sizes: nat -> Option<nat>, n: nat)
    requires IsLog(log) && Page(log, before, sizes(n)) != []
    ensures var page := Page(log, before, sizes(n));
            && |Older(log, Some(page[|page| - 1].id))| < |Older(log, before)|
            && Followed(log, before, sizes, n) == page + Followed(log, Some(page[|page| - 1].id), sizes, n + 1)
  {
    CursorMoves(log, before, sizes(n));
  }

  lemma {:induction false} OlderFacts(log: seq<Entry>, before: Option<int>)
    requires IsLog(log)
    ensures IsLog(Older(log, before))
    ensures forall x :: x in Older(log, before) <==> x in log && (before.None? || x.id < before.value)
  {
    if log != [] {
      var init := log[..|log| - 1];
      assert log == init + [log[|log| - 1]];
      OlderFacts(init, before);
      forall x | x in Older(init, before) ensures x.id < log[|log| - 1].id {
        assert x in init;
      }
    }
  }

  /** Below a cursor the log is a prefix of itself. */
  lemma {:induction false} OlderPrefix(log: seq<Entry>, k: nat)
    requires IsLog(log) && k < |log|
    ensures Older(log, Some(log[k].id)) == log[..k]
  {
    var init := log[..|log| - 1];
    if k < |log| - 1 {
      OlderPrefix(init, k);
      assert init[..k] == log[..k];
    } else {
      OlderAll(init, log[k].id);
    }
  }

  lemma {:induction false} OlderAll(log: seq<Entry>, bound: int)
    requires forall x :: x in log ==> x.id < bound
    ensures Older(log, Some(bound)) == log && Older(log, None) == log
  {
    if log != [] {
      var init, last := log[..|log| - 1], log[|log| - 1];
      assert log == init + [last] && last in log;
      forall x | x in init ensures x.id < bound {
        assert x in log;
      }
      OlderAll(init, bound);
    }
  }

  lemma {:induction false} OlderNone(log: seq<Entry>)
    ensures Older(log, None) == log
  {
    if log != [] {
      var init, last := log[..|log| - 1], log[|log| - 1];
      OlderNone(init);
      assert Older(log, None) == Older(init, None) + [last] == init + [last];
      assert log == init + [last];
    }
  }

  lemma {:induction false} OlderTwice(log: seq<Entry>, before: Option<int>, id: int)
    requires before.None? || id <= before.value
    ensures Older(Older(log, before), Some(id)) == Older(log, Some(id))
  {
    if log != [] {
      var init, last := log[..|log| - 1], log[|log| - 1];
      OlderTwice(init, before, id);
      if before.None? || last.id < before.value {
        var longer := Older(init, before) + [last];
        assert longer[..|longer| - 1] == Older(init, before);
        assert Older(log, before) == longer;
      } else {
        assert Older(log, before) == Older(init, before) + [] == Older(init, before);
        assert Older(log, Some(id)) == Older(init, Some(id)) + [] == Older(init, Some(id));
      }
    }
  }

  lemma {:induction false} OlderShrinks(log: seq<Entry>, id: int)
    ensures |Older(log, Some(id))| <= |log|
    ensures forall x :: x in log && x.id >= id ==> |Older(log, Some(id))| < |log|
  {
    if log != [] {
      var init, last := log[..|log| - 1], log[|log| - 1];
      OlderShrinks(init, id);
      assert log == init + [last];
    }
  }

  /** Every page moves the cursor: following it terminates. */
  lemma CursorMoves(log: seq<Entry>, before: Option<int>, limit: Option<nat>)
    requires IsLog(log) && Page(log, before, limit) != []
    ensures var page := Page(log, before, limit);
            |Older(log, Some(page[|page| - 1].id))| < |Older(log, before)|
  {
    var last := LastOfPage(log, before, limit);
    OlderTwice(log, before, last.id);
    OlderShrinks(Older(log, before), last.id);
  }

  lemma LastOfPage(log: seq<Entry>, before: Option<int>, limit: Option<nat>) returns (last: Entry)
    requires IsLog(log) && Page(log, before, limit) != []
    ensures var page := Page(log, before, limit);
            last == page[|page| - 1] && last in Older(log, before) && (before.Some? ==> last.id < before.value)
  {
    var rest := Older(log, before);
    OlderFacts(log, before);
    SortedSame(rest);
    var page := Page(log, before, limit);
    last := page[|page| - 1];
    assert page[|page| - 1] == Sorted(rest)[|page| - 1];
    assert last in Sorted(rest);
  }

  // ---------------------------------------------------------------- theorem

  predicate TimesFollowIds(log: seq<Entry>) {
    forall i, j :: 0 <= i < j < |log| ==> log[i].at <= log[j].at
  }

  function Reverse(log: seq<Entry>): (r: seq<Entry>)
    ensures |r| == |log|
  {
    if log == [] then [] else [log[|log| - 1]] + Reverse(log[..|log| - 1])
  }

  lemma {:induction false} ReverseFacts(log: seq<Entry>)
    ensures forall i :: 0 <= i < |log| ==> Reverse(log)[i] == log[|log| - 1 - i]
  {
    if log != [] {
      ReverseFacts(log[..|log| - 1]);
    }
  }

  lemma {:induction false} SortedIsReverse(log: seq<Entry>)
    requires IsLog(log) && TimesFollowIds(log)
    ensures Sorted(log) == Reverse(log)
  {
    if log != [] {
      var init := log[..|log| - 1];
      SortedIsReverse(init);
      ReverseFacts(init);
    }
  }

  /** The pages of a log prefix, when times follow ids, are that prefix, newest first. */
  lemma {:induction false} FollowedIsReverse(log: seq<Entry>, before: Option<int>, k: nat, sizes: nat -> Option<nat>, n: nat)
    requires IsLog(log) && TimesFollowIds(log)
    requires k <= |log| && Older(log, before) == log[..k]
    ensures Followed(log, before, sizes, n) == Reverse(log[..k])
    decreases k
  {
    if k == 0 {
      FollowedNone(log, before, sizes, n);
    } else {
      var last := ReversePage(log, before, k, sizes(n));
      FollowedStep(log, before, sizes, n);
      FollowedIsReverse(log, Some(log[last].id), last, sizes, n + 1);
    }
  }

  /** A page of such a prefix is its newest part, and the cursor leaves the rest. */
  lemma ReversePage(log: seq<Entry>, before: Option<int>, k: nat, limit: Option<nat>) returns (last: nat)
    requires IsLog(log) && TimesFollowIds(log) && 0 < k <= |log| && Older(log, before) == log[..k]
    ensures var page := Page(log, before, limit);
            && last < k && page != [] && page[|page| - 1] == log[last]
            && Older(log, Some(log[last].id)) == log[..last]
            && Reverse(log[..k]) == page + Reverse(log[..last])
  {
    var rest, page := log[..k], Page(log, before, limit);
    SortedIsReverse(rest);
    ReverseFacts(rest);
    last := k - |page|;
    assert page == Reverse(rest)[..|page|];
    OlderPrefix(log, last);
    ReverseSplit(rest, last);
    assert rest[..last] == log[..last];
  }

  lemma {:induction false} ReverseSplit(log: seq<Entry>, k: nat)
    requires k <= |log|
    ensures Reverse(log) == Reverse(log)[..|log| - k] + Reverse(log[..k])
  {
    if k == |log| {
      assert log[..k] == log;
    } else {
      var init := log[..|log| - 1];
      ReverseSplit(init, k);
      assert init[..k] == log[..k];
      assert Reverse(log)[..|log| - k] == [log[|log| - 1]] + Reverse(init)[..|init| - k];
    }
  }

  /** No entry is missed or repeated: the pages are what one query without a limit would
      return, in its order. */
  ghost predicate Complete(log: seq<Entry>, sizes: nat -> Option<nat>)
    requires IsLog(log)
  {
    Followed(log, None, sizes, 0) == Sorted(log)
  }

  /** One event per page. */
  function Single(n: nat): Option<nat> {
    Some(1)
  }

  /** No event with a smaller id has a later time. */
  predicate InOrder(log: seq<Entry>, e: Entry) {
    forall x :: x in log && x.id < e.id ==> x.at <= e.at
  }

  /** An event is read whatever the page sizes exactly when no event with a smaller id has
      a later time. */
  lemma EventReadIff(log: seq<Entry>, e: Entry)
    requires IsLog(log) && e in log
    ensures InOrder(log, e) <==> forall sizes: nat -> Option<nat> :: e in Followed(log, None, sizes, 0)
  {
    OlderNone(log);
    if InOrder(log, e) {
      forall sizes: nat -> Option<nat> ensures e in Followed(log, None, sizes, 0) {
        InOrderRead(log, None, sizes, 0, e);
      }
    } else {
      SinglesReadIff(log, e);
      assert e !in Followed(log, None, Single, 0);
    }
  }

  lemma {:induction false} InOrderRead(log: seq<Entry>, before: Option<int>, sizes: nat -> Option<nat>, n: nat, e: Entry)
    requires IsLog(log) && e in Older(log, before) && InOrder(log, e)
    ensures e in Followed(log, before, sizes, n)
    decreases |Older(log, before)|
  {
    var page := Page(log, before, sizes(n));
    PageFacts(log, before, sizes(n), e);
    FollowedStep(log, before, sizes, n);
    if e !in page {
      var cursor := page[|page| - 1].id;
      OlderFacts(log, before);
      OlderFacts(log, Some(cursor));
      InOrderRead(log, Some(cursor), sizes, n + 1, e);
    }
  }

  /** What a page leaves out comes after its last event, and by id too if it is in order. */
  lemma PageFacts(log: seq<Entry>, before: Option<int>, limit: Option<nat>, e: Entry)
    requires IsLog(log) && e in Older(log, before) && InOrder(log, e)
    ensures var page := Page(log, before, limit);
            page != [] && (e in page || e.id < page[|page| - 1].id)
  {
    var rest := Older(log, before);
    OlderFacts(log, before);
    SortedSame(rest);
    LeftOut(Sorted(rest), EffectiveLimit(limit), e);
    var page := Page(log, before, limit);
    assert page[|page| - 1] in rest;
  }

  lemma LeftOut(sorted: seq<Entry>, n: nat, e: Entry)
    requires IsSorted(sorted) && n > 0 && e in sorted
    ensures var page := Take(sorted, n);
            page != [] && page[|page| - 1] in sorted && (e in page || Before(page[|page| - 1], e))
  {
    var page := Take(sorted, n);
    var i :| 0 <= i < |sorted| && sorted[i] == e;
    assert forall j :: 0 <= j < |page| ==> page[j] == sorted[j];
    if i < |page| {
      assert page[i] == e;
    }
  }

  /** A page in full: entries below the cursor, most recent first, no more than asked for
      within 1 to 500, 50 if nothing is asked; and one left out means a full page of more
      recent ones. */
  lemma PageExact(log: seq<Entry>, before: Option<int>, limit: Option<nat>)
    requires IsLog(log)
    ensures var page := Page(log, before, limit);
            var n := if limit.None? then 50 else if limit.value == 0 then 1 else if limit.value > 500 then 500 else limit.value;
            && IsSorted(page) && |page| <= n
            && (forall e :: e in page ==> e in log && (before.Some? ==> e.id < before.value))
            && (forall e :: e in log && (before.Some? ==> e.id < before.value) && e !in page ==>
                  |page| == n && forall i :: 0 <= i < |page| ==> Before(page[i], e))
  {
    OlderFacts(log, before);
    SortedFacts(Older(log, before));
    SortedSame(Older(log, before));
    TakenFacts(Sorted(Older(log, before)), EffectiveLimit(limit));
  }

  lemma TakenFacts(sorted: seq<Entry>, n: nat)
    requires IsSorted(sorted)
    ensures var page := Take(sorted, n);
            && IsSorted(page) && |page| <= n
            && (forall e :: e in page ==> e in sorted)
            && (forall e :: e in sorted && e !in page ==> |page| == n && forall i :: 0 <= i < |page| ==> Before(page[i], e))
  {
    var page := Take(sorted, n);
    assert forall i :: 0 <= i < |page| ==> page[i] == sorted[i];
    forall e | e in sorted && e !in page ensures |page| < |sorted| && forall i :: 0 <= i < |page| ==> Before(page[i], e) {
      var k :| 0 <= k < |sorted| && sorted[k] == e;
      assert k >= |page|;
    }
  }

  lemma SortedSame(log: seq<Entry>)
    requires IsLog(log)
    ensures IsSorted(Sorted(log)) && |Sorted(log)| == |log|
    ensures forall x :: x in Sorted(log) <==> x in log
  {
    SortedFacts(log);
    assert |multiset(Sorted(log))| == |multiset(log)|;
    forall x ensures x in Sorted(log) <==> x in log {
      assert x in multiset(Sorted(log)) <==> x in multiset(log);
    }
  }

  /** One event per page: what is read has no event before it, by id, that is after it by time. */
  lemma {:induction false} SinglesReadInOrder(log: seq<Entry>, before: Option<int>, k: nat, n: nat,
                                             e: Entry)
    requires IsLog(log) && k <= |log| && Older(log, before) == log[..k]
    ensures e in Followed(log, before, Single, n) ==> ReadInOrder(log, k, e)
    decreases k
  {
    if k == 0 {
      FollowedNone(log, before, Single, n);
    } else if e in Followed(log, before, Single, n) {
      var j := SinglesStep(log, before, k, n, e);
      if !ReadInOrder(log, k, e) {
        SinglesReadInOrder(log, Some(log[j].id), j, n + 1, e);
        InOrderLonger(log, j, k, e);
      }
    }
  }

  /** The event is among the first `k`, and in order there. */
  predicate ReadInOrder(log: seq<Entry>, k: nat, e: Entry)
    requires k <= |log|
  {
    e in log[..k] && InOrder(log[..k], e)
  }

  lemma FollowedNone(log: seq<Entry>, before: Option<int>, sizes: nat -> Option<nat>, n: nat)
    requires IsLog(log) && Older(log, before) == []
    ensures Followed(log, before, sizes, n) == []
  {
  }

  lemma SinglesStep(log: seq<Entry>, before: Option<int>, k: nat, n: nat, e: Entry)
    returns (j: nat)
    requires IsLog(log) && 0 < k <= |log| && Older(log, before) == log[..k]
    requires e in Followed(log, before, Single, n)
    ensures j < k && Older(log, Some(log[j].id)) == log[..j]
    ensures ReadInOrder(log, k, e) || e in Followed(log, Some(log[j].id), Single, n + 1)
  {
    j := NewestFirst(log, before, k);
    FollowedStep(log, before, Single, n);
    OlderPrefix(log, j);
  }

  /** A page of one shows an event of the log that is in order. */
  lemma NewestFirst(log: seq<Entry>, before: Option<int>, k: nat) returns (j: nat)
    requires IsLog(log) && 0 < k <= |log| && Older(log, before) == log[..k]
    ensures j < k && Page(log, before, Some(1)) == [log[j]] && log[j] in log[..k] && InOrder(log[..k], log[j])
  {
    var rest := log[..k];
    FirstOfSorted(rest);
    j :| 0 <= j < |rest| && rest[j] == Sorted(rest)[0];
    assert rest[j] == log[j];
  }

  lemma FirstOfSorted(log: seq<Entry>)
    requires IsLog(log) && log != []
    ensures Take(Sorted(log), 1) == [Sorted(log)[0]] && Sorted(log)[0] in log && InOrder(log, Sorted(log)[0])
  {
    SortedSame(log);
    var sorted := Sorted(log);
    forall x | x in log && x.id < sorted[0].id ensures x.at <= sorted[0].at {
      var i :| 0 <= i < |sorted| && sorted[i] == x;
    }
  }

  lemma InOrderLonger(log: seq<Entry>, j: nat, k: nat, e: Entry)
    requires IsLog(log) && j <= k <= |log| && ReadInOrder(log, j, e)
    ensures ReadInOrder(log, k, e)
  {
    var at :| 0 <= at < j && log[at] == e;
    assert log[..k][at] == e;
    forall x | x in log[..k] && x.id < e.id ensures x.at <= e.at {
      var i :| 0 <= i < k && log[i] == x;
      assert i < at;
      assert log[..j][i] == x;
    }
  }

  /** Where times do not follow ids, a client reading one event per page loses one. */
  lemma DisorderLosesEvent(log: seq<Entry>)
    requires IsLog(log)
    ensures TimesFollowIds(log) <==> forall e :: e in log ==> e in Followed(log, None, Single, 0)
  {
    forall e | e in log ensures InOrder(log, e) <==> e in Followed(log, None, Single, 0) {
      SinglesReadIff(log, e);
    }
    AllInOrderIff(log);
  }

  /** One event per page: read are exactly the events in order. */
  lemma SinglesReadIff(log: seq<Entry>, e: Entry)
    requires IsLog(log) && e in log
    ensures InOrder(log, e) <==> e in Followed(log, None, Single, 0)
  {
    OlderNone(log);
    var n := |log|;
    assert log[..n] == log;
    SinglesReadInOrder(log, None, n, 0, e);
    if InOrder(log, e) {
      InOrderRead(log, None, Single, 0, e);
    }
  }

  lemma AllInOrderIff(log: seq<Entry>)
    requires IsLog(log)
    ensures TimesFollowIds(log) <==> forall e :: e in log ==> InOrder(log, e)
  {
    if TimesFollowIds(log) {
      forall e, x | e in log && x in log && x.id < e.id ensures x.at <= e.at {
        var i :| 0 <= i < |log| && log[i] == x;
        var j :| 0 <= j < |log| && log[j] == e;
        assert i < j;
      }
    } else {
      var i, j :| 0 <= i < j < |log| && log[i].at > log[j].at;
      assert !InOrder(log, log[j]);
    }
  }

  /** Following the cursor returns every matching event exactly once, whatever the page
      sizes, exactly when timestamps never decrease with id. */
  lemma PaginationCompleteIff(log: seq<Entry>)
    requires IsLog(log)
    ensures TimesFollowIds(log) <==> forall sizes: nat -> Option<nat> :: Complete(log, sizes)
  {
    if TimesFollowIds(log) {
      forall sizes: nat -> Option<nat> ensures Complete(log, sizes) {
        InOrderComplete(log, sizes);
      }
    }
    if forall sizes: nat -> Option<nat> :: Complete(log, sizes) {
      assert Complete(log, Single);
      SortedSame(log);
      DisorderLosesEvent(log);
    }
  }

  /** The events that meet a query's fixed filters. */
  function Matching(log: seq<Entry>, keep: Entry -> bool): seq<Entry> {
    if log == [] then [] else
    var last := log[|log| - 1];
    Matching(log[..|log| - 1], keep) + (if keep(last) then [last] else [])
  }

  lemma {:induction false} MatchingFacts(log: seq<Entry>, keep: Entry -> bool)
    requires IsLog(log)
    ensures IsLog(Matching(log, keep))
    ensures forall x :: x in Matching(log, keep) <==> x in log && keep(x)
    ensures TimesFollowIds(log) ==> TimesFollowIds(Matching(log, keep))
  {
    if log != [] {
      var init, last := log[..|log| - 1], log[|log| - 1];
      MatchingFacts(init, keep);
      assert log == init + [last];
      var kept := Matching(init, keep);
      forall i | 0 <= i < |kept| ensures kept[i].id < last.id && (TimesFollowIds(log) ==> kept[i].at <= last.at) {
        assert kept[i] in init;
      }
    }
  }

  /** Under any fixed filters the log is read in full, whatever the page sizes, exactly when
      times follow ids among the matching events; so always where they do in the whole log. */
  lemma FilteredCompleteIff(log: seq<Entry>, keep: Entry -> bool)
    requires IsLog(log)
    ensures IsLog(Matching(log, keep))
    ensures TimesFollowIds(Matching(log, keep)) <==>
              forall sizes: nat -> Option<nat> :: Complete(Matching(log, keep), sizes)
    ensures TimesFollowIds(log) ==> TimesFollowIds(Matching(log, keep))
  {
    MatchingFacts(log, keep);
    PaginationCompleteIff(Matching(log, keep));
  }

  lemma InOrderComplete(log: seq<Entry>, sizes: nat -> Option<nat>)
    requires IsLog(log) && TimesFollowIds(log)
    ensures Complete(log, sizes)
  {
    OlderNone(log);
    assert log[..|log|] == log;
    FollowedIsReverse(log, None, |log|, sizes, 0);
    SortedIsReverse(log);
  }

  lemma SortedPair(first: Entry, second: Entry)
    requires Before(first, second)
    ensures Sorted([first, second]) == [first, second]
  {
    var log := [first, second];
    assert log[..1] == [first] && [first][..0] == [] && [first][1..] == [];
    assert Sorted([first]) == [first];
    assert Insert(second, [first]) == [first] + Insert(second, []);
  }

  /** A clock that steps back once loses an event to a client reading one per page. */
  lemma ClockStepLosesEvent()
    ensures var log := [Entry(1, 20), Entry(2, 10)];
            IsLog(log) && Followed(log, None, Single, 0) == [Entry(1, 20)]
  {
    var first, second := Entry(1, 20), Entry(2, 10);
    var log := [first, second];
    SortedPair(first, second);
    OlderNone(log);
    assert Page(log, None, Single(0)) == [first];
    FollowedStep(log, None, Single, 0);
    OlderPrefix(log, 0);
    assert Page(log, Some(1), Single(1)) == [];
    assert Followed(log, Some(1), Single, 1) == [];
  }

  // ------------------------------------------------- latest event per file

  datatype FileEvent = FileEvent(id: int, fileId: FileId)

  /** `latest` is the event of file `f` with the highest id. */
  predicate IsLatest(log: seq<FileEvent>, f: FileId, latest: FileEvent) {
    latest in log && latest.fileId == f && forall e :: e in log && e.fileId == f ==> e.id <= latest.id
  }

  /** The answer for `ids[..n]`: each file with an event once, at its first mention, by its
      latest event. */
  predicate Answers(log: seq<FileEvent>, ids: seq<FileId>, n: nat, out: seq<FileEvent>)
    requires n <= |ids|
  {
    && (forall k :: 0 <= k < |out| ==> IsLatest(log, out[k].fileId, out[k]))
    && (forall j, k :: 0 <= j < k < |out| ==> FirstAt(ids, out[j].fileId) < FirstAt(ids, out[k].fileId))
    && (forall k :: 0 <= k < |out| ==> FirstAt(ids, out[k].fileId) < n)
    && AllMentioned(log, ids, n, out)
  }

  /** Each of `ids[..n]` with an event is there. */
  predicate AllMentioned(log: seq<FileEvent>, ids: seq<FileId>, n: nat, out: seq<FileEvent>)
    requires n <= |ids|
  {
    forall i :: 0 <= i < n && HasEvent(log, ids[i]) ==> Mentions(out, ids[i])
  }

  predicate Mentions(out: seq<FileEvent>, f: FileId) {
    exists k :: 0 <= k < |out| && out[k].fileId == f
  }

  predicate HasEvent(log: seq<FileEvent>, f: FileId) {
    exists e :: e in log && e.fileId == f
  }

  function FirstAt(ids: seq<FileId>, f: FileId): (i: nat)
    ensures i <= |ids| && (i < |ids| ==> ids[i] == f) && forall j :: 0 <= j < i ==> ids[j] != f
  {
    if ids == [] || ids[0] == f then 0 else 1 + FirstAt(ids[1..], f)
  }

  lemma AnswerMore(log: seq<FileEvent>, ids: seq<FileId>, i: nat, out: seq<FileEvent>, e: FileEvent)
    requires i < |ids| && Answers(log, ids, i, out)
    requires FirstAt(ids, ids[i]) == i && IsLatest(log, ids[i], e)
    ensures Answers(log, ids, i + 1, out + [e])
  {
    var more := out + [e];
    AllMentionedMore(log, ids, i, out, e);
    forall k | 0 <= k < |more| ensures IsLatest(log, more[k].fileId, more[k]) && FirstAt(ids, more[k].fileId) < i + 1 {
      assert more[k] == if k < |out| then out[k] else e;
    }
  }

  lemma AllMentionedMore(log: seq<FileEvent>, ids: seq<FileId>, i: nat, out: seq<FileEvent>, e: FileEvent)
    requires i < |ids| && AllMentioned(log, ids, i, out) && e.fileId == ids[i]
    ensures AllMentioned(log, ids, i + 1, out + [e])
  {
    forall n | 0 <= n < i + 1 && HasEvent(log, ids[n]) ensures Mentions(out + [e], ids[n]) {
      MentionsMore(out, e, ids[n]);
    }
  }

  lemma MentionsMore(out: seq<FileEvent>, e: FileEvent, f: FileId)
    requires Mentions(out, f) || e.fileId == f
    ensures Mentions(out + [e], f)
  {
    var more := out + [e];
    if Mentions(out, f) {
      var k :| 0 <= k < |out| && out[k].fileId == f;
      assert more[k].fileId == f;
    } else {
      assert more[|out|].fileId == f;
    }
  }

  lemma AnswerSame(log: seq<FileEvent>, ids: seq<FileId>, i: nat, out: seq<FileEvent>)
    requires i < |ids| && Answers(log, ids, i, out)
    requires FirstAt(ids, ids[i]) < i || !HasEvent(log, ids[i])
    ensures Answers(log, ids, i + 1, out)
  {
    if HasEvent(log, ids[i]) {
      MentionedBefore(log, ids, i, out, FirstAt(ids, ids[i]));
    } else {
      assert AllMentioned(log, ids, i + 1, out);
    }
  }

  lemma MentionedBefore(log: seq<FileEvent>, ids: seq<FileId>, i: nat, out: seq<FileEvent>, j: nat)
    requires j < i < |ids| && ids[j] == ids[i] && AllMentioned(log, ids, i, out)
    ensures AllMentioned(log, ids, i + 1, out)
  {
  }

  /** The map still holds the latest event of each file not yet mentioned. */
  ghost predicate Remaining(log: seq<FileEvent>, ids: seq<FileId>, i: nat, byFile: map<FileId, FileEvent>) {
    && (forall f :: f in byFile <==> HasEvent(log, f) && FirstAt(ids, f) >= i)
    && (forall f :: f in byFile ==> IsLatest(log, f, byFile[f]))
  }

  lemma RemainingNext(log: seq<FileEvent>, ids: seq<FileId>, i: nat, byFile: map<FileId, FileEvent>)
    requires i < |ids| && Remaining(log, ids, i, byFile)
    ensures Remaining(log, ids, i + 1, byFile - {ids[i]})
    ensures ids[i] !in byFile ==> byFile - {ids[i]} == byFile
    ensures ids[i] in byFile ==> FirstAt(ids, ids[i]) == i && IsLatest(log, ids[i], byFile[ids[i]])
    ensures ids[i] !in byFile ==> FirstAt(ids, ids[i]) < i || !HasEvent(log, ids[i])
  {
    assert FirstAt(ids, ids[i]) <= i;
    assert HasEvent(log, ids[i]) && FirstAt(ids, ids[i]) == i ==> ids[i] in byFile;
    forall f ensures f in byFile - {ids[i]} <==> HasEvent(log, f) && FirstAt(ids, f) >= i + 1 {
      assert FirstAt(ids, f) == i ==> f == ids[i];
    }
  }

  /** Rows are found in no useful order, keyed by file, and taken out of the map in the
      order of the request: a repeated file comes back once, one without events not at all. */
  method LatestForFileIds(log: seq<FileEvent>, ids: seq<FileId>) returns (out: seq<FileEvent>)
    ensures Answers(log, ids, |ids|, out)
  {
    var byFile := LatestByFile(log);
    out := [];
    for i := 0 to |ids|
      invariant Answers(log, ids, i, out)
      invariant Remaining(log, ids, i, byFile)
    {
      var f := ids[i];
      RemainingNext(log, ids, i, byFile);
      if f in byFile {
        AnswerMore(log, ids, i, out, byFile[f]);
        out := out + [byFile[f]];
        byFile := byFile - {f};
      } else {
        AnswerSame(log, ids, i, out);
      }
    }
  }

  method LatestByFile(log: seq<FileEvent>) returns (byFile: map<FileId, FileEvent>)
    ensures forall f :: f in byFile <==> HasEvent(log, f)
    ensures forall f :: f in byFile ==> IsLatest(log, f, byFile[f])
  {
    byFile := map[];
    for i := 0 to |log|
      invariant forall f :: f in byFile <==> HasEvent(log[..i], f)
      invariant forall f :: f in byFile ==> IsLatest(log[..i], f, byFile[f])
    {
      var e := log[i];
      assert log[..i + 1] == log[..i] + [e];
      ghost var was := byFile;
      if e.fileId !in byFile || byFile[e.fileId].id < e.id {
        byFile := byFile[e.fileId := e];
      }
      forall f ensures f in byFile <==> HasEvent(log[..i + 1], f) {
        if HasEvent(log[..i + 1], f) && f != e.fileId {
          var x :| x in log[..i + 1] && x.fileId == f;
          assert x in log[..i];
          assert HasEvent(log[..i], f);
        }
        if f in was {
          var x :| x in log[..i] && x.fileId == f;
          assert x in log[..i + 1];
        }
        if f == e.fileId {
          assert e in log[..i + 1];
        }
      }
    }
    assert log[..|log|] == log;
  }
}
