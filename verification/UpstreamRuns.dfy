/**
 Runs of checks and applies on one channel. Loading a row, fetching the upstream
 list and storing the outcome are not one step: a scan loads a hundred rows and
 then works through them, and a detect request fetches in between. So every event
 names the state it read, which may be any earlier state of the run.
 */
module UpstreamRuns {
  import opened Basics
  import opened ModelNames
  import opened UpstreamModels

  /** `read` is the number of events stored before the row was loaded. */
  datatype Event = Checking(check: Check, read: nat) | Applying(request: Request, read: nat)

  // ------------------------------------------------------------------------ one event

  predicate Stores(read: Row, e: Event) {
    match e
    case Checking(c, _) => !TooSoon(read, c) && c.stored
    case Applying(r, _) => r.stored
  }

  predicate WritesModels(read: Row, e: Event, matches: Matcher) {
    && Stores(read, e)
    && match e
       case Checking(c, _) => AutoApplies(read, c, matches)
       case Applying(r, _) => NextModels(read, r) != Local(read)
  }

  /** What became of the row that was read. */
  function Outcome(read: Row, e: Event, matches: Matcher): Row {
    match e
    case Checking(c, _) => Checked(read, c, matches)
    case Applying(r, _) => Requested(read, r)
  }

  function Step(now: Row, read: Row, e: Event, matches: Matcher): Row {
    match e
    case Checking(c, _) => CheckStored(now, read, c, matches)
    case Applying(r, _) => ApplyStored(now, read, r)
  }

  lemma StepIs(now: Row, read: Row, e: Event, matches: Matcher)
    ensures Step(now, read, e, matches) ==
            if Stores(read, e) then Overlay(now, Outcome(read, e, matches), WritesModels(read, e, matches)) else now
  {
  }

  /** The names an event adopts: all that is detected in an automatic check, what was chosen in an apply. */
  function Adopted(read: Row, e: Event, matches: Matcher): seq<string> {
    match e
    case Checking(c, _) => if c.stored && AutoApplies(read, c, matches) then Pending(read, c, matches).0 else []
    case Applying(r, _) => if r.stored then ChosenAdd(read, r) else []
  }

  function Dropped(read: Row, e: Event): seq<string> {
    if e.Applying? && e.request.stored then ChosenRemove(read, e.request) else []
  }

  lemma OutcomeTidy(read: Row, e: Event, matches: Matcher)
    requires Tidy(read)
    ensures Tidy(Outcome(read, e, matches))
  {
    match e
    case Checking(c, _) =>
      if c.upstream.Some? {
        PendingNames(read, c, matches);
      }
    case Applying(r, _) => ApplySplits(read, r);
  }

  /** What the channel serves once the models are written. */
  lemma ServedAfter(read: Row, e: Event, matches: Matcher, x: string)
    requires Tidy(read) && WritesModels(read, e, matches)
    ensures x in Local(Outcome(read, e, matches)) <==>
            (x in Local(read) && x !in Dropped(read, e)) || FallsInto(Adopted(read, e, matches), x)
  {
    match e
    case Checking(c, _) => ServedAfterCheck(read, c, matches, x);
    case Applying(r, _) => ServedAfterApply(read, r, x);
  }

  // -------------------------------------------------------------------------- runs

  function After(row: Row, events: seq<Event>, matches: Matcher): Row
    decreases |events|
  {
    if events == [] then row
    else
      var n := |events| - 1;
      var e := events[n];
      Step(After(row, events[..n], matches), After(row, events[..Min(e.read, n)], matches), e, matches)
  }

  /** The state after the first n events. */
  function State(row: Row, events: seq<Event>, n: nat, matches: Matcher): Row
    requires n <= |events|
  {
    After(row, events[..n], matches)
  }

  /** The state that event n read. */
  function Origin(row: Row, events: seq<Event>, n: nat, matches: Matcher): Row
    requires n < |events|
  {
    State(row, events, Min(events[n].read, n), matches)
  }

  lemma StateZero(row: Row, events: seq<Event>, matches: Matcher)
    ensures State(row, events, 0, matches) == row
  {
    assert events[..0] == [];
  }

  lemma StateStep(row: Row, events: seq<Event>, n: nat, matches: Matcher)
    requires n < |events|
    ensures State(row, events, n + 1, matches) ==
            Step(State(row, events, n, matches), Origin(row, events, n, matches), events[n], matches)
  {
    var p := events[..n + 1];
    var k := Min(events[n].read, n);
    assert p[..n] == events[..n] && p[..k] == events[..k];
  }

  /** From state k on, no event goes back to an earlier state. */
  ghost predicate ReadsFrom(events: seq<Event>, k: nat) {
    forall n :: k <= n < |events| ==> events[n].read >= k
  }

  /** p holds after every event from k on, if it does of the row read and of the row stored onto. */
  ghost predicate Keeps(p: Row -> bool, events: seq<Event>, k: nat, matches: Matcher) {
    forall now, read, j :: k <= j < |events| && p(now) && p(read) ==> p(Step(now, read, events[j], matches))
  }

  lemma PreservedOnce(row: Row, events: seq<Event>, k: nat, n: nat, matches: Matcher, p: Row -> bool)
    requires k <= n < |events| && Keeps(p, events, k, matches)
    requires p(State(row, events, n, matches)) && p(Origin(row, events, n, matches))
    ensures p(State(row, events, n + 1, matches))
  {
    StateStep(row, events, n, matches);
    var now, read := State(row, events, n, matches), Origin(row, events, n, matches);
    assert p(Step(now, read, events[n], matches));
  }

  /** Induction over a run: what holds in state k, and is kept by the events from then on, holds from then
      on, if none of them goes back to an earlier state. */
  lemma {:induction false} Preserved(row: Row, events: seq<Event>, k: nat, n: nat, matches: Matcher, p: Row -> bool)
    requires k <= n <= |events| && ReadsFrom(events, k)
    requires Keeps(p, events, k, matches) && p(State(row, events, k, matches))
    ensures p(State(row, events, n, matches))
    decreases n
  {
    if k < n {
      var last: nat := n - 1;
      Preserved(row, events, k, last, matches, p);
      Preserved(row, events, k, Min(events[last].read, last), matches, p);
      PreservedOnce(row, events, k, last, matches, p);
    }
  }

  lemma StepTidy(now: Row, read: Row, e: Event, matches: Matcher)
    requires Tidy(now) && Tidy(read)
    ensures Tidy(Step(now, read, e, matches))
  {
    StepIs(now, read, e, matches);
    OutcomeTidy(read, e, matches);
  }

  lemma RunTidy(row: Row, events: seq<Event>, n: nat, matches: Matcher)
    requires Tidy(row) && n <= |events|
    ensures Tidy(State(row, events, n, matches))
  {
    StateZero(row, events, matches);
    forall now, read, j | 0 <= j < |events| && Tidy(now) && Tidy(read)
      ensures Tidy(Step(now, read, events[j], matches))
    {
      StepTidy(now, read, events[j], matches);
    }
    Preserved(row, events, 0, n, matches, r => Tidy(r));
  }

  // ------------------------------------------------------------------ checks in time

  /** In any run, a check that could be stored takes effect if and only if it is forced, or comes at least
      `minInterval` after the time in the row it read (or that has none). Otherwise nothing changes. */
  lemma TakesEffectIff(row: Row, events: seq<Event>, n: nat, matches: Matcher)
    requires n < |events| && events[n].Checking? && events[n].check.stored
    ensures
      var c, read := events[n].check, Origin(row, events, n, matches);
      var next := State(row, events, n + 1, matches);
      if c.force || read.lastCheck <= 0 || c.now - read.lastCheck >= c.minInterval then
        next.lastCheck == c.now && (c.upstream.Some? ==> next.removed == Pending(read, c, matches).1)
      else next == State(row, events, n, matches)
  {
    StateStep(row, events, n, matches);
    CheckEffect(Origin(row, events, n, matches), events[n].check, matches);
  }

  /** Nothing changed between two states. */
  ghost predicate Still(row: Row, events: seq<Event>, a: nat, b: nat, matches: Matcher) {
    a <= b <= |events| && forall n :: a <= n <= b ==> State(row, events, n, matches) == State(row, events, a, matches)
  }

  /** Of two checks with nothing stored in between, the first having set the time and the second, unforced,
      having read the row after it: the second takes effect if and only if it comes at least `minInterval`
      later. So two consecutive unforced checks are that far apart, and none that is due is skipped. */
  lemma ChecksApart(row: Row, events: seq<Event>, i: nat, j: nat, matches: Matcher)
    requires i < j < |events| && events[i].Checking? && events[j].Checking?
    requires State(row, events, i + 1, matches).lastCheck == events[i].check.now > 0
    requires Still(row, events, i + 1, j, matches) && events[j].read > i
    requires !events[j].check.force && events[j].check.stored
    ensures
      var first, second := events[i].check, events[j].check;
      if second.now - first.now >= second.minInterval then State(row, events, j + 1, matches).lastCheck == second.now
      else State(row, events, j + 1, matches) == State(row, events, j, matches)
  {
    TakesEffectIff(row, events, j, matches);
    assert i + 1 <= Min(events[j].read, j) <= j;
  }

  // ------------------------------------------------------------- consistent runs

  /** Pending lists computed from an older row do not fit the models by now. */
  predicate Clashes(now: Row, next: Row) {
    || (exists j :: 0 <= j < |next.detected| && next.detected[j] in Local(now))
    || (exists j :: 0 <= j < |next.removed| && next.removed[j] !in Local(now))
  }

  /** The event applies a name with a comma of which a piece stays pending, or stores pending lists that
      do not fit the models by now. */
  predicate Harms(now: Row, read: Row, e: Event, matches: Matcher) {
    && Stores(read, e)
    && if WritesModels(read, e, matches) then e.Applying? && LeavesPiece(read, e.request)
       else Clashes(now, Outcome(read, e, matches))
  }

  lemma FitsIff(now: Row, next: Row)
    requires Tidy(next)
    ensures Consistent(Overlay(now, next, false)) <==> !Clashes(now, next)
  {
    var after := Overlay(now, next, false);
    if Clashes(now, next) {
      if j :| 0 <= j < |next.detected| && next.detected[j] in Local(now) {
        assert next.detected[j] in after.detected;
      } else {
        var j :| 0 <= j < |next.removed| && next.removed[j] !in Local(now);
        assert next.removed[j] in after.removed;
      }
    } else {
      forall x | x in next.detected
        ensures x !in Local(now)
      {
        var j :| 0 <= j < |next.detected| && next.detected[j] == x;
      }
      forall x | x in next.removed
        ensures x in Local(now)
      {
        var j :| 0 <= j < |next.removed| && next.removed[j] == x;
      }
    }
  }

  lemma WrittenConsistent(now: Row, read: Row, e: Event, matches: Matcher)
    requires Consistent(read) && WritesModels(read, e, matches)
    ensures Consistent(Outcome(read, e, matches)) <==> !Harms(now, read, e, matches)
  {
    match e
    case Checking(c, _) => CheckConsistent(read, c, matches);
    case Applying(r, _) => ApplyConsistentIff(read, r);
  }

  lemma StepConsistentIff(now: Row, read: Row, e: Event, matches: Matcher)
    requires Consistent(now) && Consistent(read)
    ensures Consistent(Step(now, read, e, matches)) <==> !Harms(now, read, e, matches)
  {
    StepIs(now, read, e, matches);
    if WritesModels(read, e, matches) {
      WrittenConsistent(now, read, e, matches);
    } else if Stores(read, e) {
      OutcomeTidy(read, e, matches);
      FitsIff(now, Outcome(read, e, matches));
    }
  }

  /** Event n harms the run. */
  predicate HarmsAt(row: Row, events: seq<Event>, n: nat, matches: Matcher)
    requires n < |events|
  {
    Harms(State(row, events, n, matches), Origin(row, events, n, matches), events[n], matches)
  }

  lemma StateConsistentIff(row: Row, events: seq<Event>, n: nat, matches: Matcher)
    requires n < |events|
    requires Consistent(State(row, events, n, matches)) && Consistent(Origin(row, events, n, matches))
    ensures Consistent(State(row, events, n + 1, matches)) <==> !HarmsAt(row, events, n, matches)
  {
    StateStep(row, events, n, matches);
    StepConsistentIff(State(row, events, n, matches), Origin(row, events, n, matches), events[n], matches);
  }

  ghost predicate ConsistentThroughout(row: Row, events: seq<Event>, matches: Matcher) {
    forall n :: 0 <= n <= |events| ==> Consistent(State(row, events, n, matches))
  }

  ghost predicate Harmless(row: Row, events: seq<Event>, matches: Matcher) {
    forall n :: 0 <= n < |events| ==> !HarmsAt(row, events, n, matches)
  }

  lemma {:induction false} HarmlessConsistent(row: Row, events: seq<Event>, n: nat, matches: Matcher)
    requires Consistent(row) && Harmless(row, events, matches) && n <= |events|
    ensures Consistent(State(row, events, n, matches))
    decreases n
  {
    if n == 0 {
      StateZero(row, events, matches);
    } else {
      var k := Min(events[n - 1].read, n - 1);
      HarmlessConsistent(row, events, n - 1, matches);
      HarmlessConsistent(row, events, k, matches);
      StateConsistentIff(row, events, n - 1, matches);
    }
  }

  lemma ConsistentHarmless(row: Row, events: seq<Event>, n: nat, matches: Matcher)
    requires ConsistentThroughout(row, events, matches) && n < |events|
    ensures !HarmsAt(row, events, n, matches)
  {
    assert Consistent(State(row, events, n + 1, matches));
    assert Consistent(State(row, events, Min(events[n].read, n), matches));
    StateConsistentIff(row, events, n, matches);
  }

  /** A run keeps, in all its states, the pending lists normal, additions disjoint from the model list and
      removals inside it, if and only if it is harmless. A normal ignore list stays normal in any case. */
  lemma RunConsistentIff(row: Row, events: seq<Event>, matches: Matcher)
    requires Consistent(row)
    ensures ConsistentThroughout(row, events, matches) <==> Harmless(row, events, matches)
    ensures forall n :: 0 <= n <= |events| && Normal(row.ignored) ==> Normal(State(row, events, n, matches).ignored)
  {
    if Harmless(row, events, matches) {
      forall n | 0 <= n <= |events|
        ensures Consistent(State(row, events, n, matches))
      {
        HarmlessConsistent(row, events, n, matches);
      }
    } else if ConsistentThroughout(row, events, matches) {
      forall n | 0 <= n < |events|
        ensures !HarmsAt(row, events, n, matches)
      {
        ConsistentHarmless(row, events, n, matches);
      }
    }
    if Normal(row.ignored) {
      forall n | 0 <= n <= |events|
        ensures Normal(State(row, events, n, matches).ignored)
      {
        IgnoreListNormal(row, events, n, matches);
      }
    }
  }

  lemma StepIgnoreList(now: Row, read: Row, e: Event, matches: Matcher)
    requires Normal(now.ignored) && Normal(read.ignored)
    ensures Normal(Step(now, read, e, matches).ignored)
  {
    if e.Applying? {
      NextIgnoredNormal(read, e.request);
    }
  }

  lemma IgnoreListNormal(row: Row, events: seq<Event>, n: nat, matches: Matcher)
    requires Normal(row.ignored) && n <= |events|
    ensures Normal(State(row, events, n, matches).ignored)
  {
    StateZero(row, events, matches);
    forall now: Row, read: Row, j | 0 <= j < |events| && Normal(now.ignored) && Normal(read.ignored)
      ensures Normal(Step(now, read, events[j], matches).ignored)
    {
      StepIgnoreList(now, read, events[j], matches);
    }
    Preserved(row, events, 0, n, matches, (r: Row) => Normal(r.ignored));
  }

  // --------------------------------------------------------------------- quiet runs

  /** Event j changes what other checks rely on: it stores an apply, or adopts models. */
  predicate Disturbs(row: Row, events: seq<Event>, j: nat, matches: Matcher)
    requires j < |events|
  {
    var read := Origin(row, events, j, matches);
    Stores(read, events[j]) && (events[j].Applying? || WritesModels(read, events[j], matches))
  }

  /** No event stores an outcome over an apply or an adoption that came after its reading. */
  ghost predicate Quiet(row: Row, events: seq<Event>, matches: Matcher) {
    forall j, n :: 0 <= j < n < |events| && events[n].read <= j ==> !Disturbs(row, events, j, matches)
  }

  ghost predicate SameBasis(a: Row, b: Row) {
    a.models == b.models && a.ignored == b.ignored
  }

  /** Between two states with nothing disturbing in between, models and ignore list stay the same. */
  lemma {:induction false} Undisturbed(row: Row, events: seq<Event>, a: nat, b: nat, matches: Matcher)
    requires Quiet(row, events, matches) && a <= b <= |events|
    requires forall j :: a <= j < b ==> !Disturbs(row, events, j, matches)
    ensures SameBasis(State(row, events, a, matches), State(row, events, b, matches))
    decreases b, 0
  {
    if a < b {
      Undisturbed(row, events, a, b - 1, matches);
      QuietBasis(row, events, b - 1, matches);
      StateStep(row, events, b - 1, matches);
      assert !Disturbs(row, events, b - 1, matches);
    }
  }

  lemma {:induction false} QuietBasis(row: Row, events: seq<Event>, n: nat, matches: Matcher)
    requires Quiet(row, events, matches) && n < |events|
    ensures SameBasis(Origin(row, events, n, matches), State(row, events, n, matches))
    decreases n, 1
  {
    Undisturbed(row, events, Min(events[n].read, n), n, matches);
  }

  lemma QuietHarm(now: Row, read: Row, e: Event, matches: Matcher)
    requires Consistent(now) && Consistent(read) && now.models == read.models
    ensures Harms(now, read, e, matches) <==> e.Applying? && e.request.stored && LeavesPiece(read, e.request)
  {
    if Stores(read, e) && !WritesModels(read, e, matches) {
      var next := Outcome(read, e, matches);
      OutcomeTidy(read, e, matches);
      FitsIff(now, next);
      assert Consistent(Overlay(now, next, false)) <==> Consistent(next);
      match e
      case Checking(c, _) => CheckConsistent(read, c, matches);
      case Applying(r, _) => ApplyConsistentIff(read, r);
    }
  }

  /** For quiet runs the condition is about commas only: no apply leaves a piece pending. */
  lemma QuietConsistentIff(row: Row, events: seq<Event>, matches: Matcher)
    requires Consistent(row) && Quiet(row, events, matches)
    ensures ConsistentThroughout(row, events, matches) <==>
            forall n :: 0 <= n < |events| && events[n].Applying? && events[n].request.stored ==>
                          !LeavesPiece(Origin(row, events, n, matches), events[n].request)
  {
    if ConsistentThroughout(row, events, matches) {
      forall n | 0 <= n < |events| && events[n].Applying? && events[n].request.stored
        ensures !LeavesPiece(Origin(row, events, n, matches), events[n].request)
      {
        QuietHarmAt(row, events, n, matches);
        ConsistentHarmless(row, events, n, matches);
      }
    }
    if forall n :: 0 <= n < |events| && events[n].Applying? && events[n].request.stored ==>
                     !LeavesPiece(Origin(row, events, n, matches), events[n].request) {
      forall n | 0 <= n <= |events|
        ensures Consistent(State(row, events, n, matches))
      {
        NoPieceConsistent(row, events, n, matches);
      }
    }
  }

  lemma QuietHarmAt(row: Row, events: seq<Event>, n: nat, matches: Matcher)
    requires Quiet(row, events, matches) && n < |events|
    requires Consistent(State(row, events, n, matches)) && Consistent(Origin(row, events, n, matches))
    ensures HarmsAt(row, events, n, matches) <==>
            events[n].Applying? && events[n].request.stored
            && LeavesPiece(Origin(row, events, n, matches), events[n].request)
  {
    QuietBasis(row, events, n, matches);
    QuietHarm(State(row, events, n, matches), Origin(row, events, n, matches), events[n], matches);
  }

  lemma {:induction false} NoPieceConsistent(row: Row, events: seq<Event>, n: nat, matches: Matcher)
    requires Consistent(row) && Quiet(row, events, matches) && n <= |events|
    requires forall j :: 0 <= j < n && events[j].Applying? && events[j].request.stored ==>
                           !LeavesPiece(Origin(row, events, j, matches), events[j].request)
    ensures Consistent(State(row, events, n, matches))
    decreases n
  {
    if n == 0 {
      StateZero(row, events, matches);
    } else {
      NoPieceConsistent(row, events, n - 1, matches);
      NoPieceConsistent(row, events, Min(events[n - 1].read, n - 1), matches);
      QuietHarmAt(row, events, n - 1, matches);
      StateConsistentIff(row, events, n - 1, matches);
    }
  }

  ghost predicate Serves(events: seq<Event>) {
    forall i :: 0 <= i < |events| && events[i].Checking? ==> StorableUpstream(events[i].check)
  }

  lemma AdoptedStorable(read: Row, e: Event, matches: Matcher)
    requires Tidy(read) && Storable(read.detected) && (e.Checking? ==> StorableUpstream(e.check))
    ensures Normal(Adopted(read, e, matches)) && Storable(Adopted(read, e, matches))
    ensures Storable(Outcome(read, e, matches).detected)
  {
    match e
    case Checking(c, _) =>
      if c.upstream.Some? {
        PendingNames(read, c, matches);
        PendingStorable(read, c, matches);
      }
    case Applying(r, _) =>
      Chosen(read, r);
      ApplySplits(read, r);
  }

  /** Upstreams that serve no name with a comma keep commas out of the pending additions. */
  lemma RunStorable(row: Row, events: seq<Event>, n: nat, matches: Matcher)
    requires Tidy(row) && Storable(row.detected) && Serves(events) && n <= |events|
    ensures Storable(State(row, events, n, matches).detected)
  {
    StateZero(row, events, matches);
    forall now, read, j | 0 <= j < |events| && TidyStorable(now) && TidyStorable(read)
      ensures TidyStorable(Step(now, read, events[j], matches))
    {
      StepTidy(now, read, events[j], matches);
      StepStorable(now, read, events[j], matches);
    }
    Preserved(row, events, 0, n, matches, r => TidyStorable(r));
  }

  ghost predicate TidyStorable(row: Row) {
    Tidy(row) && Storable(row.detected)
  }

  lemma StepStorable(now: Row, read: Row, e: Event, matches: Matcher)
    requires Tidy(read) && Storable(now.detected) && Storable(read.detected)
    requires e.Checking? ==> StorableUpstream(e.check)
    ensures Storable(Step(now, read, e, matches).detected)
  {
    StepIs(now, read, e, matches);
    AdoptedStorable(read, e, matches);
  }

  /** In particular every quiet run against upstreams that serve no name with a comma is consistent. */
  lemma RunConsistent(row: Row, events: seq<Event>, matches: Matcher)
    requires Consistent(row) && Storable(row.detected) && Serves(events) && Quiet(row, events, matches)
    ensures ConsistentThroughout(row, events, matches)
    ensures forall n :: 0 <= n <= |events| && Normal(row.ignored) ==> Normal(State(row, events, n, matches).ignored)
  {
    forall n | 0 <= n < |events| && events[n].Applying? && events[n].request.stored
      ensures !LeavesPiece(Origin(row, events, n, matches), events[n].request)
    {
      var k := Min(events[n].read, n);
      RunTidy(row, events, k, matches);
      RunStorable(row, events, k, matches);
      StorableApplies(Origin(row, events, n, matches), events[n].request);
    }
    QuietConsistentIff(row, events, matches);
    RunConsistentIff(row, events, matches);
  }

  predicate AppliesBefore(events: seq<Event>, n: nat)
    requires n <= |events|
  {
    exists j :: 0 <= j < n && events[j].Applying? && events[j].request.stored
  }

  /** In a quiet run the ignore list is normal if and only if it was at first, or an apply was stored. */
  lemma {:induction false} IgnoreListNormalIff(row: Row, events: seq<Event>, n: nat, matches: Matcher)
    requires Quiet(row, events, matches) && n <= |events|
    ensures Normal(State(row, events, n, matches).ignored) <==> Normal(row.ignored) || AppliesBefore(events, n)
    decreases n
  {
    if n == 0 {
      StateZero(row, events, matches);
    } else {
      IgnoreListNormalIff(row, events, n - 1, matches);
      QuietIgnoreList(row, events, n - 1, matches);
      assert AppliesBefore(events, n) <==>
             AppliesBefore(events, n - 1) || (events[n - 1].Applying? && events[n - 1].request.stored);
    }
  }

  lemma QuietIgnoreList(row: Row, events: seq<Event>, n: nat, matches: Matcher)
    requires Quiet(row, events, matches) && n < |events|
    ensures if events[n].Applying? && events[n].request.stored then Normal(State(row, events, n + 1, matches).ignored)
            else State(row, events, n + 1, matches).ignored == State(row, events, n, matches).ignored
  {
    QuietBasis(row, events, n, matches);
    StateStep(row, events, n, matches);
    if events[n].Applying? {
      NextIgnoredNormal(Origin(row, events, n, matches), events[n].request);
    }
  }

  // ------------------------------------------------- what an overlap does to consistency

  /** A check of the plain kind: forced, without adoption, and stored. */
  function Forced(upstream: seq<string>): Check {
    Check(true, false, 0, 0, Some(upstream), map[], true)
  }

  lemma Two(row: Row, a: Event, b: Event, matches: Matcher)
    requires b.read == 0
    ensures After(row, [a, b], matches) == Step(Step(row, row, a, matches), row, b, matches)
  {
    assert [a, b][..1] == [a] && [a][..0] == [] && [a, b][..0] == [];
    assert After(row, [a], matches) == Step(row, row, a, matches);
  }

  lemma DetectsOne(row: Row, x: string, matches: Matcher)
    requires IsName(x) && x !in Local(row) && !Ignored(Normalize(row.ignored), x, matches)
    ensures x in Pending(row, Forced([x]), matches).0
  {
    NormalizeFixed([x]);
  }

  /** A check stored over a row that serves x by now, though the row it read did not. */
  lemma PendingAndServed(now: Row, row: Row, x: string, matches: Matcher)
    requires IsName(x) && x !in Local(row) && !Ignored(Normalize(row.ignored), x, matches) && x in Local(now)
    ensures !Consistent(CheckStored(now, row, Forced([x]), matches))
  {
    DetectsOne(row, x, matches);
    var after := CheckStored(now, row, Forced([x]), matches);
    assert x in after.detected && Local(after) == Local(now);
  }

  /** Stored over an apply that came after its reading, a check leaves an added model pending: without any
      comma the row becomes inconsistent. */
  lemma OldCheckClashes(row: Row, x: string, matches: Matcher) returns (events: seq<Event>)
    requires Consistent(row) && x in row.detected && ',' !in x && !Ignored(Normalize(row.ignored), x, matches)
    ensures !Consistent(After(row, events, matches))
    ensures |events| == 2 && events[0].Applying? && !LeavesPiece(row, events[0].request)
  {
    var r := Request([x], [], [], 0, true);
    events := [Applying(r, 0), Checking(Forced([x]), 0)];
    Two(row, events[0], events[1], matches);
    AddedServed(row, x, r);
    StoredAtOnce(row, Forced([x]), r, matches);
    PendingAndServed(Requested(row, r), row, x, matches);
  }

  lemma OneChosen(row: Row, x: string, r: Request)
    requires Tidy(row) && x in row.detected && r.add == [x]
    ensures forall y :: y in ChosenAdd(row, r) <==> y == x
  {
    NormalizeFixed([x]);
    Chosen(row, r);
  }

  lemma OnePiece(names: seq<string>, x: string, y: string)
    requires IsName(x) && ',' !in x && forall z :: z in names <==> z == x
    ensures FallsInto(names, y) <==> y == x
  {
    WholePiece(x);
    assert x in names;
    var i :| 0 <= i < |names| && names[i] == x;
    assert x in Pieces(names[i]);
    assert forall j :: 0 <= j < |names| ==> names[j] in names;
  }

  lemma AddedServed(row: Row, x: string, r: Request)
    requires Consistent(row) && x in row.detected && ',' !in x && r == Request([x], [], [], r.now, true)
    ensures x in Local(Requested(row, r)) && !LeavesPiece(row, r)
  {
    OneChosen(row, x, r);
    OnePiece(ChosenAdd(row, r), x, x);
    ServedAfterApply(row, r, x);
    ApplySplits(row, r);
    forall j | 0 <= j < |RemainingAdd(row, r)|
      ensures !FallsInto(ChosenAdd(row, r), RemainingAdd(row, r)[j])
    {
      assert RemainingAdd(row, r)[j] in RemainingAdd(row, r);
      OnePiece(ChosenAdd(row, r), x, RemainingAdd(row, r)[j]);
    }
  }

  /** An adoption in between does the same. */
  lemma OldCheckAfterAdoption(row: Row, x: string, matches: Matcher) returns (events: seq<Event>)
    requires Tidy(row) && row.autoSync && IsName(x) && ',' !in x && x !in Local(row)
    requires !Ignored(Normalize(row.ignored), x, matches)
    ensures !Consistent(After(row, events, matches))
    ensures |events| == 2 && events[0].Checking? && events[1].Checking?
  {
    var c := Forced([x]).(allowAutoApply := true);
    events := [Checking(c, 0), Checking(Forced([x]), 0)];
    Two(row, events[0], events[1], matches);
    AdoptedServed(row, x, c, matches);
    PendingAndServed(CheckStored(row, row, c, matches), row, x, matches);
  }

  lemma AdoptedServed(row: Row, x: string, c: Check, matches: Matcher)
    requires row.autoSync && IsName(x) && ',' !in x && x !in Local(row)
    requires !Ignored(Normalize(row.ignored), x, matches) && c == Forced([x]).(allowAutoApply := true)
    ensures x in Local(CheckStored(row, row, c, matches))
  {
    DetectsOne(row, x, matches);
    WholePiece(x);
    AdoptedPiece(row, c, matches, x, x);
    StoredAtOnce(row, c, Request([], [], [], 0, true), matches);
  }

  // ------------------------------------------------------------- ignoring for good

  /** After the event, m is on the ignore list and not pending, as far as the row that was read tells. */
  ghost predicate Remembers(read: Row, e: Event, m: string) {
    match e
    case Checking(c, _) => m in Normalize(read.ignored) && (c.upstream.None? ==> m !in read.detected)
    case Applying(r, _) =>
      if m in read.detected then m in Normalize(r.ignore) && m !in Normalize(r.add)
      else m in Normalize(read.ignored)
  }

  lemma OutcomeUnproposed(read: Row, e: Event, matches: Matcher, m: string)
    requires Tidy(read) && Stores(read, e) && EntryIgnores(m, m, matches)
    ensures Unproposed(Outcome(read, e, matches), m) <==> Remembers(read, e, m)
  {
    match e
    case Checking(c, _) =>
      if m in Normalize(read.ignored) {
        IgnoredByItself(Normalize(read.ignored), m, matches);
      }
    case Applying(r, _) =>
      Chosen(read, r);
      NextIgnoredNames(read, r);
      ApplySplits(read, r);
  }

  lemma StepUnproposedIff(now: Row, read: Row, e: Event, matches: Matcher, m: string)
    requires Tidy(read) && Unproposed(now, m) && EntryIgnores(m, m, matches)
    ensures Unproposed(Step(now, read, e, matches), m) <==> (Stores(read, e) ==> Remembers(read, e, m))
  {
    StepIs(now, read, e, matches);
    if Stores(read, e) {
      OutcomeUnproposed(read, e, matches, m);
    }
  }

  ghost predicate UnproposedSince(row: Row, events: seq<Event>, k: nat, matches: Matcher, m: string) {
    forall n :: k <= n <= |events| ==> Unproposed(State(row, events, n, matches), m)
  }

  ghost predicate NeverForgets(row: Row, events: seq<Event>, k: nat, matches: Matcher, m: string) {
    forall n :: k <= n < |events| ==>
      var read := Origin(row, events, n, matches);
      Stores(read, events[n]) ==> Remembers(read, events[n], m)
  }

  lemma StateUnproposedIff(row: Row, events: seq<Event>, n: nat, matches: Matcher, m: string)
    requires Tidy(row) && EntryIgnores(m, m, matches) && n < |events|
    requires Unproposed(State(row, events, n, matches), m)
    ensures
      var read := Origin(row, events, n, matches);
      Unproposed(State(row, events, n + 1, matches), m) <==> (Stores(read, events[n]) ==> Remembers(read, events[n], m))
  {
    RunTidy(row, events, Min(events[n].read, n), matches);
    StateStep(row, events, n, matches);
    StepUnproposedIff(State(row, events, n, matches), Origin(row, events, n, matches), events[n], matches, m);
  }

  lemma {:induction false} RemembersUnproposed(row: Row, events: seq<Event>, k: nat, n: nat, matches: Matcher,
                                               m: string)
    requires Tidy(row) && EntryIgnores(m, m, matches) && k <= n <= |events|
    requires Unproposed(State(row, events, k, matches), m) && NeverForgets(row, events, k, matches, m)
    ensures Unproposed(State(row, events, n, matches), m)
    decreases n
  {
    if k < n {
      RemembersUnproposed(row, events, k, n - 1, matches, m);
      StateUnproposedIff(row, events, n - 1, matches, m);
    }
  }

  /** From a state in which m is ignored and not pending, it is never proposed again nor dropped from the
      ignore list, if and only if every outcome stored from then on goes back to a row that remembers it. */
  lemma RunUnproposedIff(row: Row, events: seq<Event>, k: nat, matches: Matcher, m: string)
    requires Tidy(row) && EntryIgnores(m, m, matches) && k <= |events|
    requires Unproposed(State(row, events, k, matches), m)
    ensures UnproposedSince(row, events, k, matches, m) <==> NeverForgets(row, events, k, matches, m)
  {
    if UnproposedSince(row, events, k, matches, m) {
      forall n | k <= n < |events|
        ensures
          var read := Origin(row, events, n, matches);
          Stores(read, events[n]) ==> Remembers(read, events[n], m)
      {
        assert Unproposed(State(row, events, n, matches), m) && Unproposed(State(row, events, n + 1, matches), m);
        StateUnproposedIff(row, events, n, matches, m);
      }
    }
    if NeverForgets(row, events, k, matches, m) {
      forall n | k <= n <= |events|
        ensures Unproposed(State(row, events, n, matches), m)
      {
        RemembersUnproposed(row, events, k, n, matches, m);
      }
    }
  }

  /** In particular nothing forgets m that read the row no earlier than that. */
  lemma StaysUnproposed(row: Row, events: seq<Event>, k: nat, n: nat, matches: Matcher, m: string)
    requires Tidy(row) && EntryIgnores(m, m, matches) && k <= n <= |events| && ReadsFrom(events, k)
    requires Unproposed(State(row, events, k, matches), m)
    ensures Unproposed(State(row, events, n, matches), m)
  {
    RunTidy(row, events, k, matches);
    forall now, read, j | k <= j < |events| && TidyUnproposed(now, m) && TidyUnproposed(read, m)
      ensures TidyUnproposed(Step(now, read, events[j], matches), m)
    {
      StepTidy(now, read, events[j], matches);
      UnproposedRemembers(read, events[j], m);
      StepUnproposedIff(now, read, events[j], matches, m);
    }
    Preserved(row, events, k, n, matches, r => TidyUnproposed(r, m));
  }

  ghost predicate TidyUnproposed(row: Row, m: string) {
    Tidy(row) && Unproposed(row, m)
  }

  lemma UnproposedRemembers(read: Row, e: Event, m: string)
    requires Unproposed(read, m)
    ensures Remembers(read, e, m)
  {
  }

  /** Event k is a stored apply that ignores m, pending in the row it read, and does not add it. */
  ghost predicate Ignores(row: Row, events: seq<Event>, k: nat, matches: Matcher, m: string) {
    && k < |events| && events[k].Applying? && events[k].request.stored
    && m in Origin(row, events, k, matches).detected
    && m in Normalize(events[k].request.ignore) && m !in Normalize(events[k].request.add)
  }

  lemma IgnoredThen(row: Row, events: seq<Event>, k: nat, matches: Matcher, m: string)
    requires Tidy(row) && Ignores(row, events, k, matches, m)
    ensures Unproposed(State(row, events, k + 1, matches), m)
  {
    var read := Origin(row, events, k, matches);
    var r := events[k].request;
    RunTidy(row, events, Min(events[k].read, k), matches);
    StateStep(row, events, k, matches);
    Chosen(read, r);
    NextIgnoredNames(read, r);
    ApplySplits(read, r);
  }

  /** Once a pending model is ignored and not added by the same request, no later state proposes it or
      has dropped it from the ignore list, provided nothing stored later had read the row before. */
  lemma IgnoredForGood(row: Row, events: seq<Event>, k: nat, n: nat, matches: Matcher, m: string)
    requires Tidy(row) && EntryIgnores(m, m, matches) && k < n <= |events|
    requires Ignores(row, events, k, matches, m) && ReadsFrom(events, k + 1)
    ensures Unproposed(State(row, events, n, matches), m)
  {
    IgnoredThen(row, events, k, matches, m);
    StaysUnproposed(row, events, k + 1, n, matches, m);
  }

  /** A check that did brings it back: it is proposed again and gone from the ignore list. */
  lemma OldCheckForgets(row: Row, m: string, matches: Matcher) returns (events: seq<Event>)
    requires Consistent(row) && m in row.detected && m !in Normalize(row.ignored)
    requires !Ignored(Normalize(row.ignored), m, matches)
    ensures Ignores(row, events, 0, matches, m) && |events| == 2
    ensures
      var after := After(row, events, matches);
      m in after.detected && m !in Normalize(after.ignored)
  {
    var r := Request([], [m], [], 0, true);
    events := [Applying(r, 0), Checking(Forced([m]), 0)];
    assert events[..0] == [];
    NormalizeFixed([m]);
    Two(row, events[0], events[1], matches);
    ForgottenBy(ApplyStored(row, row, r), row, m, matches);
  }

  lemma ForgottenBy(now: Row, row: Row, m: string, matches: Matcher)
    requires IsName(m) && m !in Local(row) && m !in Normalize(row.ignored)
    requires !Ignored(Normalize(row.ignored), m, matches)
    ensures
      var after := CheckStored(now, row, Forced([m]), matches);
      m in after.detected && m !in Normalize(after.ignored)
  {
    DetectsOne(row, m, matches);
  }

  // ---------------------------------------------------------- ignored and unserved

  /** The event writes a model list that serves m. */
  predicate Brings(read: Row, e: Event, matches: Matcher, m: string) {
    && WritesModels(read, e, matches)
    && ((m in Local(read) && m !in Dropped(read, e)) || FallsInto(Adopted(read, e, matches), m))
  }

  lemma StepServed(now: Row, read: Row, e: Event, matches: Matcher, m: string)
    requires Tidy(read)
    ensures m in Local(Step(now, read, e, matches)) <==>
            if WritesModels(read, e, matches) then Brings(read, e, matches, m) else m in Local(now)
  {
    StepIs(now, read, e, matches);
    if WritesModels(read, e, matches) {
      ServedAfter(read, e, matches, m);
    }
  }

  ghost predicate UnservedSince(row: Row, events: seq<Event>, k: nat, matches: Matcher, m: string) {
    forall n :: k <= n <= |events| ==> m !in Local(State(row, events, n, matches))
  }

  predicate NeverBrings(row: Row, events: seq<Event>, k: nat, matches: Matcher, m: string) {
    forall n :: k <= n < |events| ==> !Brings(Origin(row, events, n, matches), events[n], matches, m)
  }

  lemma StateServed(row: Row, events: seq<Event>, n: nat, matches: Matcher, m: string)
    requires Tidy(row) && n < |events|
    ensures
      var read := Origin(row, events, n, matches);
      m in Local(State(row, events, n + 1, matches)) <==>
      if WritesModels(read, events[n], matches) then Brings(read, events[n], matches, m)
      else m in Local(State(row, events, n, matches))
  {
    RunTidy(row, events, Min(events[n].read, n), matches);
    StateStep(row, events, n, matches);
    StepServed(State(row, events, n, matches), Origin(row, events, n, matches), events[n], matches, m);
  }

  lemma {:induction false} NeverBrought(row: Row, events: seq<Event>, k: nat, n: nat, matches: Matcher, m: string)
    requires Tidy(row) && k <= n <= |events|
    requires m !in Local(State(row, events, k, matches)) && NeverBrings(row, events, k, matches, m)
    ensures m !in Local(State(row, events, n, matches))
    decreases n
  {
    if k < n {
      NeverBrought(row, events, k, n - 1, matches, m);
      StateServed(row, events, n - 1, matches, m);
    }
  }

  /** From a state that does not serve m, no later state serves it, if and only if no event writes a list
      that does: from a row that still had it, or with an adopted name that falls into it. */
  lemma UnservedIff(row: Row, events: seq<Event>, k: nat, matches: Matcher, m: string)
    requires Tidy(row) && k <= |events| && m !in Local(State(row, events, k, matches))
    ensures UnservedSince(row, events, k, matches, m) <==> NeverBrings(row, events, k, matches, m)
  {
    if UnservedSince(row, events, k, matches, m) {
      forall n | k <= n < |events|
        ensures !Brings(Origin(row, events, n, matches), events[n], matches, m)
      {
        assert m !in Local(State(row, events, n + 1, matches));
        StateServed(row, events, n, matches, m);
      }
    }
    if NeverBrings(row, events, k, matches, m) {
      forall n | k <= n <= |events|
        ensures m !in Local(State(row, events, n, matches))
      {
        NeverBrought(row, events, k, n, matches, m);
      }
    }
  }

  /** A model ignored by event k, which read the row it was stored onto, is served in no later state, if
      and only if neither that event nor a later one brings it. */
  lemma IgnoredStaysUnserved(row: Row, events: seq<Event>, k: nat, matches: Matcher, m: string)
    requires Tidy(row) && Ignores(row, events, k, matches, m) && events[k].read >= k
    requires Consistent(State(row, events, k, matches))
    ensures UnservedSince(row, events, k + 1, matches, m) <==> NeverBrings(row, events, k, matches, m)
  {
    assert Origin(row, events, k, matches) == State(row, events, k, matches);
    UnservedIff(row, events, k, matches, m);
    OneEarlier(row, events, k, matches, m);
  }

  lemma OneEarlier(row: Row, events: seq<Event>, k: nat, matches: Matcher, m: string)
    requires k < |events| && m !in Local(State(row, events, k, matches))
    ensures UnservedSince(row, events, k, matches, m) <==> UnservedSince(row, events, k + 1, matches, m)
  {
    if UnservedSince(row, events, k + 1, matches, m) {
      forall n | k <= n <= |events|
        ensures m !in Local(State(row, events, n, matches))
      {
        if n > k {
          assert k + 1 <= n;
        }
      }
    }
  }

  lemma NotAdopted(read: Row, e: Event, matches: Matcher, m: string)
    requires Tidy(read) && Unproposed(read, m) && EntryIgnores(m, m, matches)
    ensures m !in Adopted(read, e, matches)
  {
    match e
    case Checking(c, _) => IgnoredByItself(Normalize(read.ignored), m, matches);
    case Applying(r, _) => Chosen(read, r);
  }

  lemma NotBrought(read: Row, e: Event, matches: Matcher, m: string)
    requires Tidy(read) && Storable(read.detected) && (e.Checking? ==> StorableUpstream(e.check))
    requires Suppressed(read, m) && EntryIgnores(m, m, matches)
    ensures !Brings(read, e, matches, m)
  {
    AdoptedStorable(read, e, matches);
    NotAdopted(read, e, matches, m);
    WholePieces(Adopted(read, e, matches), m);
  }

  /** Against upstreams that serve no name with a comma, a model that is ignored, not pending and not
      served stays all that, as long as nothing goes back to an earlier state. */
  lemma StaysSuppressed(row: Row, events: seq<Event>, k: nat, n: nat, matches: Matcher, m: string)
    requires Tidy(row) && Storable(row.detected) && Serves(events) && EntryIgnores(m, m, matches)
    requires k <= n <= |events| && ReadsFrom(events, k) && Suppressed(State(row, events, k, matches), m)
    ensures Suppressed(State(row, events, n, matches), m)
  {
    RunTidy(row, events, k, matches);
    RunStorable(row, events, k, matches);
    forall now, read, j | k <= j < |events| && Out(now, m) && Out(read, m)
      ensures Out(Step(now, read, events[j], matches), m)
    {
      StepOut(now, read, events[j], matches, m);
    }
    Preserved(row, events, k, n, matches, r => Out(r, m));
  }

  ghost predicate Out(row: Row, m: string) {
    TidyStorable(row) && Suppressed(row, m)
  }

  lemma StepOut(now: Row, read: Row, e: Event, matches: Matcher, m: string)
    requires Out(now, m) && Out(read, m) && EntryIgnores(m, m, matches)
    requires e.Checking? ==> StorableUpstream(e.check)
    ensures Out(Step(now, read, e, matches), m)
  {
    StepTidy(now, read, e, matches);
    StepStorable(now, read, e, matches);
    UnproposedRemembers(read, e, m);
    StepUnproposedIff(now, read, e, matches, m);
    NotBrought(read, e, matches, m);
    StepServed(now, read, e, matches, m);
  }
}
