/**
 The id-ordered batch scan over enabled channels, used by the upstream-model task
 and by "apply all". The table may change between two batch queries: query number
 k sees the set `enabled(k)` of enabled channel ids, and answers as SQL's
 ORDER BY / LIMIT / WHERE id > ? does (`IsPage`).
 */
module ChannelScan {
  import opened Basics

  const BATCH_SIZE := 100

  ghost predicate Ascending(ids: seq<int>) {
    forall i, j :: 0 <= i < j < |ids| ==> ids[i] < ids[j]
  }

  /** The filter is only added once an id has been seen. */
  predicate Eligible(x: int, lastId: int) {
    lastId > 0 ==> x > lastId
  }

  /** `page` holds the first `limit` eligible ids of s in ascending order. */
  ghost predicate IsPage(s: set<int>, lastId: int, limit: nat, page: seq<int>) {
    && Ascending(page)
    && |page| <= limit
    && (forall x :: x in page ==> x in s && Eligible(x, lastId))
    && (forall x :: x in s && Eligible(x, lastId) && x !in page ==>
          |page| == limit && forall i :: 0 <= i < |page| ==> page[i] < x)
  }

  /** Query number k fails, or answers from the table as it is then. */
  ghost predicate Answers(query: (nat, int) -> Option<seq<int>>, enabled: nat -> set<int>) {
    forall k: nat, lastId: int ::
      query(k, lastId).Some? ==> IsPage(enabled(k), lastId, BATCH_SIZE, query(k, lastId).value)
  }

  ghost predicate IdsWithin(enabled: nat -> set<int>, maxId: int) {
    forall k: nat, x: int :: x in enabled(k) ==> 1 <= x <= maxId
  }

  ghost predicate EnabledThroughout(enabled: nat -> set<int>, queries: nat, x: int) {
    forall k: nat :: k < queries ==> x in enabled(k)
  }

  /** Nothing enabled throughout is passed over: up to the last visited id, all are visited. */
  ghost predicate NoGap(enabled: nat -> set<int>, queries: nat, visited: seq<int>) {
    visited != [] ==>
      forall x :: EnabledThroughout(enabled, queries, x) && 1 <= x <= visited[|visited| - 1] ==> x in visited
  }

  ghost predicate Seen(enabled: nat -> set<int>, queries: nat, visited: seq<int>) {
    forall x :: x in visited ==> 1 <= x && exists k: nat :: k < queries && x in enabled(k)
  }

  ghost predicate Undisturbed(query: (nat, int) -> Option<seq<int>>, cancelled: nat -> bool) {
    (forall i: nat :: !cancelled(i)) && forall k: nat, lastId: int :: query(k, lastId).Some?
  }

  /** The scan ends because the last id strictly grows; it visits ids in strictly ascending order,
      so none twice; each visited id was enabled when some query ran; no id enabled in all snapshots
      is passed over and, unless a query failed or the scan was cancelled, every one is visited,
      however the table changes in between. `cancelled(i)` is the answer to the i-th look at the
      context: before each query, and before and after each channel. */
  method Scan(query: (nat, int) -> Option<seq<int>>, cancelled: nat -> bool,
              ghost enabled: nat -> set<int>, ghost maxId: int)
    returns (visited: seq<int>, queries: nat, finished: bool)
    requires Answers(query, enabled) && IdsWithin(enabled, maxId)
    ensures Ascending(visited) && Seen(enabled, queries, visited) && NoGap(enabled, queries, visited)
    ensures finished ==> queries >= 1 && forall x :: EnabledThroughout(enabled, queries, x) ==> x in visited
    ensures Undisturbed(query, cancelled) ==> finished
    ensures |visited| <= 100 * queries
  {
    visited, queries, finished := [], 0, false;
    var lastId, looks := 0, 0;
    while true
      invariant lastId == (if visited == [] then 0 else visited[|visited| - 1])
      invariant 0 <= lastId <= maxId || lastId == 0
      invariant Ascending(visited) && Seen(enabled, queries, visited) && NoGap(enabled, queries, visited)
      invariant |visited| <= 100 * queries
      decreases maxId - lastId
    {
      if cancelled(looks) {
        return;
      }
      looks := looks + 1;
      var answer := query(queries, lastId);
      if answer.None? {
        return;
      }
      var page := answer.value;
      ghost var k := queries;
      queries := queries + 1;
      FewerThroughout(enabled, k, visited);
      if |page| == 0 {
        CompleteAtEnd(enabled, k, lastId, page, visited, maxId);
        finished := true;
        return;
      }
      ghost var before := lastId;
      assert page[|page| - 1] in page && page[|page| - 1] in enabled(k);
      lastId := page[|page| - 1];
      var stopped;
      visited, looks, stopped := VisitPage(cancelled, page, visited, looks, enabled, k, before);
      if stopped {
        return;
      }
      if |page| < BATCH_SIZE {
        CompleteAtEnd(enabled, k, before, page, visited, maxId);
        finished := true;
        return;
      }
    }
  }

  /** One batch, visited whole or up to a cancellation. */
  method VisitPage(cancelled: nat -> bool, page: seq<int>, before: seq<int>, looked: nat,
                   ghost enabled: nat -> set<int>, ghost k: nat, ghost lastId: int)
    returns (visited: seq<int>, looks: nat, stopped: bool)
    requires IsPage(enabled(k), lastId, BATCH_SIZE, page) && page != []
    requires Ascending(before) && Seen(enabled, k, before) && NoGap(enabled, k, before)
    requires lastId == (if before == [] then 0 else before[|before| - 1])
    requires forall x :: x in page ==> 1 <= x
    ensures Ascending(visited) && Seen(enabled, k + 1, visited) && NoGap(enabled, k + 1, visited)
    ensures !stopped ==> visited == before + page
    ensures |visited| <= |before| + |page|
    ensures stopped ==> exists i: nat :: cancelled(i)
  {
    visited, looks, stopped := before, looked, false;
    FewerThroughout(enabled, k, before);
    for i := 0 to |page|
      invariant visited == before + page[..i]
      invariant Ascending(visited) && Seen(enabled, k + 1, visited) && NoGap(enabled, k + 1, visited)
    {
      if cancelled(looks) {
        stopped := true;
        return;
      }
      looks := looks + 1;
      Extends(enabled, k, lastId, page, before, i + 1);
      assert before + page[..i + 1] == visited + [page[i]];
      visited := visited + [page[i]];
      if cancelled(looks) {
        stopped := true;
        return;
      }
      looks := looks + 1;
    }
    assert page[..|page|] == page;
  }

  /** One query more: fewer ids are enabled throughout, more snapshots are seen. */
  lemma FewerThroughout(enabled: nat -> set<int>, k: nat, visited: seq<int>)
    requires Seen(enabled, k, visited) && NoGap(enabled, k, visited)
    ensures Seen(enabled, k + 1, visited) && NoGap(enabled, k + 1, visited)
  {
    forall x | EnabledThroughout(enabled, k + 1, x)
      ensures EnabledThroughout(enabled, k, x)
    {
    }
  }

  /** A batch that is not full completes the scan. */
  lemma CompleteAtEnd(enabled: nat -> set<int>, k: nat, lastId: int, page: seq<int>, visited: seq<int>, maxId: int)
    requires IsPage(enabled(k), lastId, BATCH_SIZE, page) && |page| < BATCH_SIZE
    requires forall x :: x in page ==> x in visited
    requires lastId == 0 || (visited != [] && lastId <= visited[|visited| - 1])
    requires NoGap(enabled, k + 1, visited) && IdsWithin(enabled, maxId)
    ensures forall x :: EnabledThroughout(enabled, k + 1, x) ==> x in visited
  {
    forall x | EnabledThroughout(enabled, k + 1, x)
      ensures x in visited
    {
      assert x in enabled(k);
      if !(1 <= x <= lastId) {
        assert Eligible(x, lastId);
      }
    }
  }

  /** The first n ids of a batch extend the visited ids without gap or repetition. */
  lemma Extends(enabled: nat -> set<int>, k: nat, lastId: int, page: seq<int>, seen: seq<int>, n: nat)
    requires IsPage(enabled(k), lastId, BATCH_SIZE, page) && 0 < n <= |page|
    requires Ascending(seen) && Seen(enabled, k, seen) && NoGap(enabled, k, seen)
    requires lastId == if seen == [] then 0 else seen[|seen| - 1]
    requires forall x :: x in page ==> 1 <= x
    ensures
      var visited := seen + page[..n];
      Ascending(visited) && Seen(enabled, k + 1, visited) && NoGap(enabled, k + 1, visited)
  {
    var visited := seen + page[..n];
    assert seen != [] ==> lastId in seen;
    assert forall x :: x in page[..n] ==> x in page;
    FewerThroughout(enabled, k, seen);
    forall i, j | 0 <= i < j < |visited|
      ensures visited[i] < visited[j]
    {
      if i < |seen| <= j {
        assert visited[j] == page[j - |seen|] && page[j - |seen|] in page;
        assert visited[i] <= lastId;
      }
    }
    forall x | EnabledThroughout(enabled, k + 1, x) && 1 <= x <= visited[|visited| - 1]
      ensures x in visited
    {
      if x > lastId {
        InFirst(enabled(k), lastId, page, n, x);
      }
    }
  }

  lemma InFirst(s: set<int>, lastId: int, page: seq<int>, n: nat, x: int)
    requires IsPage(s, lastId, BATCH_SIZE, page) && 0 < n <= |page|
    requires x in s && Eligible(x, lastId) && x <= page[n - 1]
    ensures x in page[..n]
  {
    assert x in page;
    var i :| 0 <= i < |page| && page[i] == x;
    assert page[..n][if i < n then i else 0] == page[if i < n then i else 0];
  }
}
