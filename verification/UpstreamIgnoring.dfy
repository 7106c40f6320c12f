/**
 Which names can be kept from being proposed for good. Adding a model strikes its
 name from the ignore list, so an entry that is itself a pattern can be lost: an
 upstream serves a model of that very name, and someone adds it. What lasts is a
 choice of entries that ignore one another.
 */
module UpstreamIgnoring {
  import opened Basics
  import opened ModelNames
  import opened UpstreamModels
  import opened UpstreamRuns

  ghost predicate IgnoredBy(entries: set<string>, name: string, matches: Matcher) {
    exists e :: e in entries && EntryIgnores(e, name, matches)
  }

  /** These entries keep m, and one another, from being proposed. */
  ghost predicate Guards(entries: set<string>, m: string, matches: Matcher) {
    IgnoredBy(entries, m, matches) && forall f :: f in entries ==> IgnoredBy(entries, f, matches)
  }

  /** They are on the ignore list and none of them, nor m, is pending. */
  ghost predicate InForce(row: Row, entries: set<string>, m: string) {
    m !in row.detected && forall e :: e in entries ==> e in Normalize(row.ignored) && e !in row.detected
  }

  lemma StillIgnored(list: seq<string>, entries: set<string>, name: string, matches: Matcher)
    requires IgnoredBy(entries, name, matches) && forall e :: e in entries ==> e in list
    ensures Ignored(list, name, matches)
  {
    var e :| e in entries && EntryIgnores(e, name, matches);
    var i :| 0 <= i < |list| && list[i] == e;
    assert EntryIgnores(list[i], name, matches);
  }

  // --------------------------------------------------------- guarded names stay out

  lemma CheckInForce(read: Row, c: Check, matches: Matcher, entries: set<string>, m: string)
    requires Guards(entries, m, matches) && InForce(read, entries, m) && c.upstream.Some?
    ensures m !in Pending(read, c, matches).0 && forall e :: e in entries ==> e !in Pending(read, c, matches).0
  {
    var list := Normalize(read.ignored);
    StillIgnored(list, entries, m, matches);
    forall e | e in entries
      ensures Ignored(list, e, matches)
    {
      StillIgnored(list, entries, e, matches);
    }
  }

  lemma OutcomeInForce(read: Row, e: Event, matches: Matcher, entries: set<string>, m: string)
    requires Tidy(read) && Guards(entries, m, matches) && InForce(read, entries, m)
    ensures InForce(Outcome(read, e, matches), entries, m)
  {
    match e
    case Checking(c, _) =>
      if c.upstream.Some? {
        CheckInForce(read, c, matches, entries, m);
      }
    case Applying(r, _) =>
      Chosen(read, r);
      NextIgnoredNames(read, r);
      ApplySplits(read, r);
  }

  lemma StaysInForce(row: Row, events: seq<Event>, n: nat, matches: Matcher, entries: set<string>, m: string)
    requires Tidy(row) && Guards(entries, m, matches) && InForce(row, entries, m) && n <= |events|
    ensures InForce(State(row, events, n, matches), entries, m)
  {
    StateZero(row, events, matches);
    forall now, read, j | 0 <= j < |events| && TidyInForce(now, entries, m) && TidyInForce(read, entries, m)
      ensures TidyInForce(Step(now, read, events[j], matches), entries, m)
    {
      StepTidy(now, read, events[j], matches);
      StepInForce(now, read, events[j], matches, entries, m);
    }
    Preserved(row, events, 0, n, matches, r => TidyInForce(r, entries, m));
  }

  ghost predicate TidyInForce(row: Row, entries: set<string>, m: string) {
    Tidy(row) && InForce(row, entries, m)
  }

  lemma StepInForce(now: Row, read: Row, e: Event, matches: Matcher, entries: set<string>, m: string)
    requires Tidy(read) && Guards(entries, m, matches) && InForce(now, entries, m) && InForce(read, entries, m)
    ensures InForce(Step(now, read, e, matches), entries, m)
  {
    StepIs(now, read, e, matches);
    OutcomeInForce(read, e, matches, entries, m);
  }

  // --------------------------------------------------- other names can be proposed

  /** Appends an event that reads the row it is stored onto. */
  lemma Append(row: Row, events: seq<Event>, e: Event, matches: Matcher)
    requires e.read >= |events|
    ensures After(row, events + [e], matches) == Outcome(After(row, events, matches), e, matches)
  {
    var all := events + [e];
    assert all[..|events|] == events;
  }

  ghost predicate SameIgnoreList(a: Row, b: Row) {
    forall x :: x in Normalize(a.ignored) <==> x in Normalize(b.ignored)
  }

  /** Nothing served, nothing pending. */
  ghost predicate Bare(row: Row) {
    Local(row) == [] && row.detected == [] && row.removed == []
  }

  lemma NothingUpstream(row: Row, matches: Matcher)
    ensures
      var next := Checked(row, Forced([]), matches);
      && next.detected == [] && (forall x :: x in next.removed <==> x in Local(row))
      && Normal(next.removed) && Local(next) == Local(row) && next.ignored == row.ignored
  {
    PendingNames(row, Forced([]), matches);
    NoNames(Pending(row, Forced([]), matches).0);
  }

  lemma RemoveAll(row: Row)
    requires Tidy(row) && row.detected == [] && forall x :: x in row.removed <==> x in Local(row)
    ensures
      var next := Requested(row, Request([], [], row.removed, 0, true));
      Bare(next) && SameIgnoreList(row, next)
  {
    var r := Request([], [], row.removed, 0, true);
    var next := Requested(row, r);
    Chosen(row, r);
    NormalizeFixed(row.removed);
    ApplySplits(row, r);
    NextIgnoredNames(row, r);
    NoNames(RemainingAdd(row, r));
    NoNames(RemainingRemove(row, r));
    NoNames(ChosenAdd(row, r));
    forall x
      ensures x !in Local(next)
    {
      ServedAfterApply(row, r, x);
    }
    NoNames(Local(next));
  }

  /** Some run empties the model list and leaves the ignore list. */
  lemma Clear(row: Row, events: seq<Event>, matches: Matcher) returns (more: seq<Event>)
    ensures Bare(After(row, more, matches)) && SameIgnoreList(After(row, events, matches), After(row, more, matches))
  {
    var check := Checking(Forced([]), |events|);
    Append(row, events, check, matches);
    NothingUpstream(After(row, events, matches), matches);
    var mid := events + [check];
    var apply := Applying(Request([], [], After(row, mid, matches).removed, 0, true), |mid|);
    Append(row, mid, apply, matches);
    RemoveAll(After(row, mid, matches));
    more := mid + [apply];
  }

  lemma ProposeOne(row: Row, x: string, matches: Matcher)
    requires Bare(row) && IsName(x) && !Ignored(Normalize(row.ignored), x, matches)
    ensures
      var next := Checked(row, Forced([x]), matches);
      Tidy(next) && (forall y :: y in next.detected <==> y == x) && next.ignored == row.ignored
  {
    PendingNames(row, Forced([x]), matches);
    NormalizeFixed([x]);
  }

  /** Some run proposes a name that no entry ignores. */
  lemma Propose(row: Row, events: seq<Event>, x: string, matches: Matcher) returns (more: seq<Event>)
    requires IsName(x) && !Ignored(Normalize(After(row, events, matches).ignored), x, matches)
    ensures
      var next := After(row, more, matches);
      Tidy(next) && (forall y :: y in next.detected <==> y == x) && SameIgnoreList(After(row, events, matches), next)
  {
    more := Clear(row, events, matches);
    var cleared := After(row, more, matches);
    SameIgnores(Normalize(After(row, events, matches).ignored), Normalize(cleared.ignored), matches);
    var check := Checking(Forced([x]), |more|);
    Append(row, more, check, matches);
    ProposeOne(cleared, x, matches);
    more := more + [check];
  }

  /** Adding all that is pending strikes it from the ignore list. */
  lemma AddAll(row: Row)
    requires Tidy(row)
    ensures
      var next := Requested(row, Request(row.detected, [], [], 0, true));
      && next.detected == []
      && forall x :: x in Normalize(next.ignored) <==> x in Normalize(row.ignored) && x !in row.detected
  {
    var r := Request(row.detected, [], [], 0, true);
    Chosen(row, r);
    NormalizeFixed(row.detected);
    NextIgnoredNames(row, r);
    ApplySplits(row, r);
    NoNames(RemainingAdd(row, r));
  }

  lemma AddPending(row: Row, events: seq<Event>, matches: Matcher) returns (more: seq<Event>)
    requires Tidy(After(row, events, matches))
    ensures
      var now, next := After(row, events, matches), After(row, more, matches);
      && next.detected == []
      && forall x :: x in Normalize(next.ignored) <==> x in Normalize(now.ignored) && x !in now.detected
  {
    var now := After(row, events, matches);
    var apply := Applying(Request(now.detected, [], [], 0, true), |events|);
    Append(row, events, apply, matches);
    AddAll(now);
    more := events + [apply];
  }

  function Entries(row: Row): set<string> {
    set x | x in Normalize(row.ignored)
  }

  /** Some run strikes an entry that no entry ignores: its own name is served and added. */
  lemma Strike(row: Row, events: seq<Event>, e: string, matches: Matcher) returns (more: seq<Event>)
    requires e in Entries(After(row, events, matches))
    requires !Ignored(Normalize(After(row, events, matches).ignored), e, matches)
    ensures Entries(After(row, more, matches)) == Entries(After(row, events, matches)) - {e}
  {
    NormalizeNormal(After(row, events, matches).ignored);
    var proposed := Propose(row, events, e, matches);
    more := AddPending(row, proposed, matches);
  }

  /** Some run strikes entries until those left ignore one another. */
  lemma StrikeAll(row: Row, events: seq<Event>, matches: Matcher) returns (more: seq<Event>)
    ensures Entries(After(row, more, matches)) <= Entries(After(row, events, matches))
    ensures
      var list := Normalize(After(row, more, matches).ignored);
      forall e :: e in list ==> Ignored(list, e, matches)
    decreases Entries(After(row, events, matches))
  {
    var list := Normalize(After(row, events, matches).ignored);
    more := events;
    if e :| e in list && !Ignored(list, e, matches) {
      var struck := Strike(row, events, e, matches);
      more := StrikeAll(row, struck, matches);
    }
  }

  lemma IgnoredByEntries(row: Row, name: string, matches: Matcher)
    requires Ignored(Normalize(row.ignored), name, matches)
    ensures IgnoredBy(Entries(row), name, matches)
  {
    var list := Normalize(row.ignored);
    var i :| 0 <= i < |list| && EntryIgnores(list[i], name, matches);
    assert list[i] in Entries(row);
  }

  lemma SelfGuarding(row: Row, m: string, matches: Matcher)
    requires Ignored(Normalize(row.ignored), m, matches)
    requires forall e :: e in Normalize(row.ignored) ==> Ignored(Normalize(row.ignored), e, matches)
    ensures Guards(Entries(row), m, matches)
  {
    IgnoredByEntries(row, m, matches);
    forall f | f in Entries(row)
      ensures IgnoredBy(Entries(row), f, matches)
    {
      IgnoredByEntries(row, f, matches);
    }
  }

  ghost predicate Guarded(row: Row, m: string, matches: Matcher) {
    exists entries: set<string> :: Guards(entries, m, matches) && InForce(row, entries, m)
  }

  lemma UnguardedProposed(row: Row, m: string, matches: Matcher) returns (events: seq<Event>)
    requires Tidy(row) && IsName(m) && m !in row.detected && !Guarded(row, m, matches)
    ensures m in After(row, events, matches).detected
  {
    var added := AddPending(row, [], matches);
    var struck := StrikeAll(row, added, matches);
    var left := After(row, struck, matches);
    if Ignored(Normalize(left.ignored), m, matches) {
      SelfGuarding(left, m, matches);
      assert InForce(row, Entries(left), m);
    }
    events := Propose(row, struck, m, matches);
  }

  /** A name that is not pending is proposed in no run, whatever the upstream serves and whoever adds,
      removes or ignores what, if and only if some entries that are not pending ignore it and one another. */
  lemma NeverProposedIff(row: Row, m: string, matches: Matcher)
    requires Tidy(row) && IsName(m) && m !in row.detected
    ensures (forall events: seq<Event> :: m !in After(row, events, matches).detected) <==> Guarded(row, m, matches)
  {
    if Guarded(row, m, matches) {
      var entries: set<string> :| Guards(entries, m, matches) && InForce(row, entries, m);
      forall events: seq<Event>
        ensures m !in After(row, events, matches).detected
      {
        StaysInForce(row, events, |events|, matches, entries, m);
        assert events[..|events|] == events;
      }
    } else {
      var events := UnguardedProposed(row, m, matches);
      assert m in After(row, events, matches).detected;
    }
  }

  /** With m as the only entry this is a matter of m alone: a plain name always ignores itself, and a
      pattern exactly if it matches its own name. */
  lemma OnlyEntryIff(row: Row, m: string, matches: Matcher)
    requires Tidy(row) && Normalize(row.ignored) == [m] && m !in row.detected
    ensures Guarded(row, m, matches) <==> EntryIgnores(m, m, matches)
  {
    if EntryIgnores(m, m, matches) {
      GuardsItself(row, m, matches);
    } else if Guarded(row, m, matches) {
      var entries: set<string> :| Guards(entries, m, matches) && InForce(row, entries, m);
      OnlyOne(row, entries, m, matches);
    }
  }

  lemma GuardsItself(row: Row, m: string, matches: Matcher)
    requires EntryIgnores(m, m, matches) && m in Normalize(row.ignored) && m !in row.detected
    ensures Guarded(row, m, matches)
  {
    var entries := {m};
    assert m in entries;
    assert IgnoredBy(entries, m, matches);
    assert Guards(entries, m, matches) && InForce(row, entries, m);
  }

  lemma OnlyOne(row: Row, entries: set<string>, m: string, matches: Matcher)
    requires Normalize(row.ignored) == [m] && IgnoredBy(entries, m, matches)
    requires forall e :: e in entries ==> e in Normalize(row.ignored)
    ensures EntryIgnores(m, m, matches)
  {
    var e :| e in entries && EntryIgnores(e, m, matches);
    assert e in Normalize(row.ignored);
  }
}
