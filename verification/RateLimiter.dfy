/**
 The in-memory sliding-window rate limiter: per key a bounded queue of admission
 times, and a janitor that forgets keys idle for longer than the expiry. Both
 forget requests; the theorems say they never forget one that still matters, by
 comparing every decision with the full log of admitted requests.
 */
module RateLimiter {

  type Store = map<string, seq<int>>

  /** A key is always requested with the same limit and duration (in seconds). */
  datatype Rule = Rule(limit: nat, duration: int)

  datatype Event = Request(key: string, now: int) | Janitor(now: int)

  /** `expiration` is in nanoseconds; the janitor only runs if it is positive. */
  datatype System = System(rules: string -> Rule, expiration: int)

  const SECOND := 1_000_000_000

  /** Whole seconds of a positive duration. */
  function Seconds(expiration: int): int {
    expiration / SECOND
  }

  /** The expiry is compared in seconds, whatever is left of the last one. */
  lemma SecondsExact(seconds: nat, nanoseconds: nat)
    requires nanoseconds < 1_000_000_000
    ensures Seconds(1_000_000_000 * seconds + nanoseconds) == seconds
  {
  }

  // ------------------------------------------------------------- one operation

  function Queue(store: Store, key: string): seq<int> {
    if key in store then store[key] else []
  }

  predicate Admits(store: Store, key: string, rule: Rule, now: int) {
    key !in store || |store[key]| < rule.limit || store[key] == [] || now - store[key][0] >= rule.duration
  }

  function Requested(store: Store, key: string, rule: Rule, now: int): Store {
    if !Admits(store, key, rule, now) then store
    else if key !in store || |store[key]| < rule.limit || store[key] == [] then store[key := Queue(store, key) + [now]]
    else store[key := store[key][1..] + [now]]
  }

  predicate Stale(queue: seq<int>, now: int, expiry: int) {
    queue == [] || now - queue[|queue| - 1] > expiry
  }

  function Swept(store: Store, now: int, expiry: int): Store {
    map key | key in store && !Stale(store[key], now, expiry) :: store[key]
  }

  class InMemoryRateLimiter {
    var store: Store
    const expiration: int

    /** No queue is ever empty: the source would index an empty queue when the limit is 0. */
    ghost predicate Valid()
      reads this
    {
      forall key :: key in store ==> store[key] != []
    }

    constructor (expiration: int)
      ensures Valid() && store == map[] && this.expiration == expiration
      ensures HasJanitor() <==> expiration > 0
    {
      store := map[];
      this.expiration := expiration;
    }

    /** The sweeping goroutine has been started. */
    predicate HasJanitor() {
      expiration > 0
    }

    method Request(key: string, limit: nat, duration: int, now: int) returns (ok: bool)
      requires Valid()
      modifies this
      ensures Valid()
      ensures ok == Admits(old(store), key, Rule(limit, duration), now)
      ensures store == Requested(old(store), key, Rule(limit, duration), now)
    {
      if key in store {
        var queue := store[key];
        if |queue| < limit {
          store := store[key := queue + [now]];
          return true;
        } else if now - queue[0] >= duration {
          queue := queue[1..];
          queue := queue + [now];
          store := store[key := queue];
          return true;
        } else {
          return false;
        }
      } else {
        store := store[key := []];
        store := store[key := store[key] + [now]];
      }
      return true;
    }

    method ClearExpiredItems(now: int)
      requires Valid() && HasJanitor()
      modifies this
      ensures Valid()
      ensures store == Swept(old(store), now, Seconds(expiration))
    {
      var todo := store.Keys;
      while todo != {}
        invariant todo <= store.Keys <= old(store).Keys
        invariant forall key :: key in store ==> store[key] == old(store)[key]
        invariant forall key :: key in old(store) && key !in todo ==>
                    (key in store <==> !Stale(old(store)[key], now, Seconds(expiration)))
        decreases todo
      {
        var key :| key in todo;
        var queue := store[key];
        var size := |queue|;
        if size == 0 || now - queue[size - 1] > Seconds(expiration) {
          store := store - {key};
        }
        todo := todo - {key};
      }
    }
  }

  // ------------------------------------------------------------------ whole runs

  function Step(sys: System, store: Store, e: Event): Store {
    match e
    case Request(key, now) => Requested(store, key, sys.rules(key), now)
    case Janitor(now) => if sys.expiration > 0 then Swept(store, now, Seconds(sys.expiration)) else store
  }

  function After(sys: System, events: seq<Event>): Store {
    if events == [] then map[] else Step(sys, After(sys, events[..|events| - 1]), events[|events| - 1])
  }

  /** The full log: times at which requests for `key` were admitted, oldest first. */
  function Admitted(sys: System, events: seq<Event>, key: string): seq<int> {
    if events == [] then [] else
      var p := events[..|events| - 1];
      Logged(sys, After(sys, p), Admitted(sys, p, key), events[|events| - 1], key)
  }

  function Logged(sys: System, store: Store, log: seq<int>, e: Event, key: string): seq<int> {
    if e.Request? && e.key == key && Admits(store, key, sys.rules(key), e.now) then log + [e.now] else log
  }

  /** The clock never runs backwards, and shows at most `now` at the end of the run. */
  predicate Chronological(events: seq<Event>, now: int) {
    events == [] ||
    var e := events[|events| - 1];
    e.now <= now && Chronological(events[..|events| - 1], e.now)
  }

  /** Times t of the log with lo <= t < hi. */
  function Within(log: seq<int>, lo: int, hi: int): nat {
    if log == [] then 0
    else Within(log[1..], lo, hi) + if lo <= log[0] < hi then 1 else 0
  }

  /** A limit of 0 still lets one request through, because a fresh queue is never checked. */
  function Capacity(rule: Rule): nat {
    if rule.limit == 0 then 1 else rule.limit
  }

  /** There is no janitor, or it waits long enough: `duration` does not exceed the expiry by more than
      the one second that its strict comparison leaves. */
  predicate ExpirySuffices(sys: System, key: string) {
    sys.expiration > 0 ==> sys.rules(key).duration <= Seconds(sys.expiration) + 1
  }

  ghost predicate Sorted(log: seq<int>) {
    forall i, j :: 0 <= i < j < |log| ==> log[i] <= log[j]
  }

  /** What ties the queue to the log at time `now`: it is the log's tail, at most a full window
      long; what is no longer in it has left the window; and admissions one capacity apart are
      at least `duration` apart. */
  ghost predicate Agrees(rule: Rule, queue: seq<int>, log: seq<int>, now: int) {
    && |queue| <= Capacity(rule) && |queue| <= |log|
    && queue == log[|log| - |queue|..]
    && Sorted(log)
    && (forall i :: 0 <= i < |log| ==> log[i] <= now)
    && (forall i :: 0 <= i < |log| - |queue| ==> now - log[i] >= rule.duration)
    && (forall i :: 0 <= i < |log| - Capacity(rule) ==> log[i + Capacity(rule)] - log[i] >= rule.duration)
  }

  lemma LaterAgrees(rule: Rule, queue: seq<int>, log: seq<int>, now: int, later: int)
    requires Agrees(rule, queue, log, now) && now <= later
    ensures Agrees(rule, queue, log, later)
  {
  }

  lemma TailExtends(log: seq<int>, queue: seq<int>, drop: nat, now: int)
    requires |queue| <= |log| && queue == log[|log| - |queue|..] && drop <= |queue|
    ensures queue[drop..] + [now] == (log + [now])[|log| - |queue| + drop..]
  {
  }

  /** Admission without displacing anything. */
  lemma PushAgrees(rule: Rule, queue: seq<int>, log: seq<int>, now: int)
    requires Agrees(rule, queue, log, now)
    requires |queue| < Capacity(rule)
    ensures Agrees(rule, queue + [now], log + [now], now)
  {
    TailExtends(log, queue, 0, now);
    assert queue[0..] == queue;
  }

  /** Admission that displaces the oldest entry of a full queue. */
  lemma ShiftAgrees(rule: Rule, queue: seq<int>, log: seq<int>, now: int)
    requires Agrees(rule, queue, log, now)
    requires |queue| == Capacity(rule)
    requires now - queue[0] >= rule.duration
    ensures Agrees(rule, queue[1..] + [now], log + [now], now)
  {
    TailExtends(log, queue, 1, now);
    assert queue[0] == log[|log| - |queue|];
  }

  lemma AdmitAgrees(rule: Rule, store: Store, key: string, log: seq<int>, now: int)
    requires Agrees(rule, Queue(store, key), log, now)
    requires key in store ==> store[key] != []
    requires Admits(store, key, rule, now)
    ensures Agrees(rule, Queue(Requested(store, key, rule, now), key), log + [now], now)
  {
    if key !in store || |store[key]| < rule.limit {
      PushAgrees(rule, Queue(store, key), log, now);
    } else {
      ShiftAgrees(rule, Queue(store, key), log, now);
    }
  }

  lemma SweepAgrees(sys: System, store: Store, key: string, log: seq<int>, now: int)
    requires Agrees(sys.rules(key), Queue(store, key), log, now)
    requires ExpirySuffices(sys, key) && sys.expiration > 0
    ensures Agrees(sys.rules(key), Queue(Swept(store, now, Seconds(sys.expiration)), key), log, now)
  {
    var queue := Queue(store, key);
    if key in store && Stale(queue, now, Seconds(sys.expiration)) && queue != [] {
      assert queue[|queue| - 1] == log[|log| - 1];
    }
  }

  ghost predicate NoEmptyQueue(store: Store) {
    forall key :: key in store ==> store[key] != []
  }

  lemma StepNoEmpty(sys: System, store: Store, e: Event)
    requires NoEmptyQueue(store)
    ensures NoEmptyQueue(Step(sys, store, e))
  {
  }

  lemma StepAgrees(sys: System, store: Store, log: seq<int>, e: Event, key: string)
    requires ExpirySuffices(sys, key) && NoEmptyQueue(store)
    requires Agrees(sys.rules(key), Queue(store, key), log, e.now)
    ensures Agrees(sys.rules(key), Queue(Step(sys, store, e), key), Logged(sys, store, log, e, key), e.now)
  {
    if e.Janitor? {
      if sys.expiration > 0 {
        SweepAgrees(sys, store, key, log, e.now);
      }
    } else if e.key != key {
      assert Queue(Step(sys, store, e), key) == Queue(store, key);
    } else if Admits(store, key, sys.rules(key), e.now) {
      AdmitAgrees(sys.rules(key), store, key, log, e.now);
    }
  }

  /** Every run keeps the queue and the log in agreement. */
  lemma {:induction false} RunAgrees(sys: System, events: seq<Event>, key: string, now: int)
    requires Chronological(events, now) && ExpirySuffices(sys, key)
    ensures NoEmptyQueue(After(sys, events))
    ensures Agrees(sys.rules(key), Queue(After(sys, events), key), Admitted(sys, events, key), now)
    decreases |events|
  {
    if events != [] {
      var p := events[..|events| - 1];
      var e := events[|events| - 1];
      RunAgrees(sys, p, key, e.now);
      StepNoEmpty(sys, After(sys, p), e);
      StepAgrees(sys, After(sys, p), Admitted(sys, p, key), e, key);
      LaterAgrees(sys.rules(key), Queue(After(sys, events), key), Admitted(sys, events, key), e.now, now);
    }
  }

  // ------------------------------------------------------------- the main results

  lemma {:induction false} WithinSuffix(log: seq<int>, k: nat, lo: int, hi: int)
    requires k <= |log|
    requires forall i :: 0 <= i < k ==> log[i] < lo
    requires forall i :: k <= i < |log| ==> lo <= log[i] < hi
    ensures Within(log, lo, hi) == |log| - k
  {
    if log != [] {
      WithinSuffix(log[1..], if k == 0 then 0 else k - 1, lo, hi);
    }
  }

  /** In a sorted log the times inside [lo, hi) are contiguous. */
  lemma {:induction false} WithinRange(log: seq<int>, lo: int, hi: int) returns (a: nat, b: nat)
    requires Sorted(log)
    ensures a <= b <= |log| && b - a == Within(log, lo, hi)
    ensures forall i :: a <= i < b ==> lo <= log[i] < hi
  {
    if log == [] {
      return 0, 0;
    }
    var a', b' := WithinRange(log[1..], lo, hi);
    if lo <= log[0] < hi {
      if b' == a' {
        return 0, 1;
      }
      WithinHead(log, lo, hi, a', b');
      return 0, b' + 1;
    }
    return a' + 1, b' + 1;
  }

  lemma WithinHead(log: seq<int>, lo: int, hi: int, a: nat, b: nat)
    requires Sorted(log) && |log| > 0 && lo <= log[0] < hi
    requires a < b < |log| && b - a == Within(log[1..], lo, hi)
    requires forall i :: a <= i < b ==> lo <= log[1..][i] < hi
    ensures a == 0
  {
    if a > 0 {
      var rest := log[1..];
      forall i | 0 <= i < b
        ensures lo <= rest[i] < hi
      {
        assert rest[i] == log[i + 1];
        assert rest[b - 1] == log[b];
      }
      WithinPrefix(rest, b, lo, hi);
    }
  }

  lemma {:induction false} WithinPrefix(log: seq<int>, b: nat, lo: int, hi: int)
    requires b <= |log|
    requires forall i :: 0 <= i < b ==> lo <= log[i] < hi
    ensures Within(log, lo, hi) >= b
  {
    if b > 0 {
      WithinPrefix(log[1..], b - 1, lo, hi);
    }
  }

  lemma RoomLeft(rule: Rule, queue: seq<int>, log: seq<int>, now: int)
    requires Agrees(rule, queue, log, now)
    requires |queue| < Capacity(rule) || now - queue[0] >= rule.duration
    ensures Within(log, now - rule.duration + 1, now + 1) < Capacity(rule)
  {
    var d := |log| - |queue|;
    if |queue| < Capacity(rule) {
      WithinAtMost(log, d, now - rule.duration + 1, now + 1);
    } else {
      assert log[d] == queue[0];
      WithinAtMost(log, d + 1, now - rule.duration + 1, now + 1);
    }
  }

  lemma NoRoomLeft(rule: Rule, queue: seq<int>, log: seq<int>, now: int)
    requires Agrees(rule, queue, log, now)
    requires |queue| == Capacity(rule) && now - queue[0] < rule.duration
    ensures Within(log, now - rule.duration + 1, now + 1) == Capacity(rule)
  {
    var d := |log| - |queue|;
    assert log[d] == queue[0];
    WithinSuffix(log, d, now - rule.duration + 1, now + 1);
  }

  lemma DecisionAgrees(rule: Rule, store: Store, key: string, log: seq<int>, now: int)
    requires Agrees(rule, Queue(store, key), log, now)
    requires key in store ==> store[key] != []
    ensures Admits(store, key, rule, now) <==> Within(log, now - rule.duration + 1, now + 1) < Capacity(rule)
  {
    if Admits(store, key, rule, now) {
      RoomLeft(rule, Queue(store, key), log, now);
    } else {
      NoRoomLeft(rule, store[key], log, now);
    }
  }

  /** For a clock that never runs backwards, a request is admitted if and only if fewer than
      `Capacity` admitted requests of the full log lie in the last `duration` seconds. */
  lemma AdmitsIffRoom(sys: System, events: seq<Event>, key: string, now: int)
    requires Chronological(events, now) && ExpirySuffices(sys, key)
    ensures Admits(After(sys, events), key, sys.rules(key), now) <==>
            Within(Admitted(sys, events, key), now - sys.rules(key).duration + 1, now + 1) < Capacity(sys.rules(key))
  {
    RunAgrees(sys, events, key, now);
    DecisionAgrees(sys.rules(key), After(sys, events), key, Admitted(sys, events, key), now);
  }

  lemma {:induction false} WithinAtMost(log: seq<int>, k: nat, lo: int, hi: int)
    requires k <= |log|
    requires forall i :: 0 <= i < k ==> log[i] < lo
    ensures Within(log, lo, hi) <= |log| - k
  {
    if log != [] {
      WithinAtMost(log[1..], if k == 0 then 0 else k - 1, lo, hi);
    }
  }

  /** No window of `duration` seconds, wherever it starts, ever holds more than `Capacity`
      admitted requests. */
  lemma WindowBound(sys: System, events: seq<Event>, key: string, now: int, start: int)
    requires Chronological(events, now) && ExpirySuffices(sys, key)
    ensures Within(Admitted(sys, events, key), start, start + sys.rules(key).duration) <= Capacity(sys.rules(key))
  {
    RunAgrees(sys, events, key, now);
    var c := Capacity(sys.rules(key));
    var log := Admitted(sys, events, key);
    var a, b := WithinRange(log, start, start + sys.rules(key).duration);
    assert a + c < |log| ==> log[a + c] - log[a] >= sys.rules(key).duration;
  }

  // --------------------------------------------- the expiry condition is necessary

  function Burst(key: string, n: nat): (events: seq<Event>)
    ensures |events| == n && forall i :: 0 <= i < n ==> events[i] == Request(key, 0)
  {
    seq(n, _ => Request(key, 0))
  }

  lemma {:induction false} BurstFills(sys: System, key: string, n: nat)
    requires n <= Capacity(sys.rules(key))
    ensures After(sys, Burst(key, n)) == if n == 0 then map[] else map[key := seq(n, _ => 0)]
    ensures Admitted(sys, Burst(key, n), key) == seq(n, _ => 0)
    ensures Chronological(Burst(key, n), 0)
  {
    if n > 0 {
      BurstFills(sys, key, n - 1);
      assert Burst(key, n)[..n - 1] == Burst(key, n - 1);
      assert seq(n, _ => 0) == seq(n - 1, _ => 0) + [0];
    }
  }

  lemma LaterChronological(events: seq<Event>, now: int, later: int)
    requires Chronological(events, now) && now <= later
    ensures Chronological(events, later)
  {
  }

  /** When a key's duration exceeds the expiry by two seconds or more, the janitor forgets a full
      window too early and the next request is admitted although the log has no room for it. So
      `ExpirySuffices` is exactly the condition under which every run is right. */
  lemma ExpiryNecessary(sys: System, key: string) returns (events: seq<Event>, now: int)
    requires !ExpirySuffices(sys, key)
    ensures Chronological(events, now)
    ensures Admits(After(sys, events), key, sys.rules(key), now)
    ensures Within(Admitted(sys, events, key), now - sys.rules(key).duration + 1, now + 1) >= Capacity(sys.rules(key))
  {
    var rule := sys.rules(key);
    var n := Capacity(rule);
    now := Seconds(sys.expiration) + 1;
    events := Burst(key, n) + [Janitor(now)];
    assert events[..n] == Burst(key, n);
    BurstFills(sys, key, n);
    assert key !in After(sys, events);
    LaterChronological(Burst(key, n), 0, now);
    WithinSuffix(Admitted(sys, events, key), 0, now - rule.duration + 1, now + 1);
  }
}
