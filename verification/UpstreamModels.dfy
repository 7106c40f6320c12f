/**
 Reconciling a channel's model list with the list its upstream serves: detection
 of additions and removals, automatic adoption, and explicit applying or ignoring
 of what was detected.

 The model list is stored as the source stores it, one comma-separated text, so
 that what the comma costs is part of the model. Regular-expression matching is an
 arbitrary predicate; a pattern that does not compile matches nothing.
 */
module UpstreamModels {
  import opened Basics
  import opened ModelNames
  import Text

  const REGEX_PREFIX := "regex:"

  type Matcher = (string, string) -> bool

  // -------------------------------------------------------------------- detection

  predicate IsPattern(entry: string) {
    REGEX_PREFIX <= entry
  }

  predicate EntryIgnores(entry: string, name: string, matches: Matcher) {
    if IsPattern(entry) then matches(Text.Trim(entry[|REGEX_PREFIX|..]), name) else entry == name
  }

  predicate Ignored(entries: seq<string>, name: string, matches: Matcher) {
    exists i :: 0 <= i < |entries| && EntryIgnores(entries[i], name, matches)
  }

  predicate IsNew(name: string, local: seq<string>, ignored: seq<string>, mapping: map<string, string>,
                  matches: Matcher) {
    name !in local && name !in mapping.Values && !Ignored(ignored, name, matches)
  }

  function NewNames(upstream: seq<string>, local: seq<string>, ignored: seq<string>, mapping: map<string, string>,
                    matches: Matcher): (r: seq<string>)
    ensures forall x :: x in r <==> x in upstream && IsNew(x, local, ignored, mapping, matches)
  {
    if upstream == [] then []
    else
      var n := |upstream| - 1;
      var r := NewNames(upstream[..n], local, ignored, mapping, matches);
      if IsNew(upstream[n], local, ignored, mapping, matches) then r + [upstream[n]] else r
  }

  function GoneNames(local: seq<string>, upstream: seq<string>, mapping: map<string, string>): (r: seq<string>)
    ensures forall x :: x in r <==> x in local && x !in mapping && x !in upstream
  {
    if local == [] then []
    else
      var n := |local| - 1;
      var r := GoneNames(local[..n], upstream, mapping);
      if local[n] !in mapping && local[n] !in upstream then r + [local[n]] else r
  }

  /** Pending additions and removals. Aliases (mapping sources) are never removed, and upstream
      names reachable through an alias (mapping targets) are never added. */
  function Detected(local: seq<string>, upstream: seq<string>, ignored: seq<string>, mapping: map<string, string>,
                    matches: Matcher): (seq<string>, seq<string>) {
    (NewNames(Normalize(upstream), Normalize(local), Normalize(ignored), mapping, matches),
     GoneNames(Normalize(local), Normalize(upstream), mapping))
  }

  method CollectPending(local: seq<string>, upstream: seq<string>, ignored: seq<string>, mapping: map<string, string>,
                        matches: Matcher) returns (add: seq<string>, remove: seq<string>)
    ensures (add, remove) == Detected(local, upstream, ignored, mapping, matches)
  {
    var localModels, upstreamModels, entries := Normalize(local), Normalize(upstream), Normalize(ignored);
    add := CollectNew(upstreamModels, localModels, entries, mapping, matches);
    remove := CollectGone(localModels, upstreamModels, mapping);
    DetectedNormal(local, upstream, ignored, mapping, matches);
    NormalizeFixed(add);
    NormalizeFixed(remove);
    add, remove := Normalize(add), Normalize(remove);
  }

  method CollectNew(upstream: seq<string>, local: seq<string>, ignored: seq<string>, mapping: map<string, string>,
                    matches: Matcher) returns (add: seq<string>)
    ensures add == NewNames(upstream, local, ignored, mapping, matches)
  {
    var localSet := set m | m in local;
    var covered := localSet + mapping.Values;
    add := [];
    for i := 0 to |upstream|
      invariant add == NewNames(upstream[..i], local, ignored, mapping, matches)
    {
      assert upstream[..i + 1][..i] == upstream[..i];
      if upstream[i] !in covered && !Ignored(ignored, upstream[i], matches) {
        add := add + [upstream[i]];
      }
    }
    assert upstream[..|upstream|] == upstream;
  }

  method CollectGone(local: seq<string>, upstream: seq<string>, mapping: map<string, string>)
    returns (remove: seq<string>)
    ensures remove == GoneNames(local, upstream, mapping)
  {
    var upstreamSet := set m | m in upstream;
    remove := [];
    for i := 0 to |local|
      invariant remove == GoneNames(local[..i], upstream, mapping)
    {
      assert local[..i + 1][..i] == local[..i];
      if local[i] !in mapping.Keys && local[i] !in upstreamSet {
        remove := remove + [local[i]];
      }
    }
    assert local[..|local|] == local;
  }

  lemma {:induction false} NewNamesNormal(upstream: seq<string>, local: seq<string>, ignored: seq<string>,
                                          mapping: map<string, string>, matches: Matcher)
    requires Normal(upstream)
    ensures Normal(NewNames(upstream, local, ignored, mapping, matches))
  {
    if upstream != [] {
      var n := |upstream| - 1;
      var r := NewNames(upstream[..n], local, ignored, mapping, matches);
      ButLastNormal(upstream);
      NewNamesNormal(upstream[..n], local, ignored, mapping, matches);
      SnocNormal(upstream, r);
      var all := NewNames(upstream, local, ignored, mapping, matches);
      assert all == r || all == r + [upstream[n]];
    }
  }

  lemma {:induction false} GoneNamesNormal(local: seq<string>, upstream: seq<string>, mapping: map<string, string>)
    requires Normal(local)
    ensures Normal(GoneNames(local, upstream, mapping))
  {
    if local != [] {
      var n := |local| - 1;
      var r := GoneNames(local[..n], upstream, mapping);
      ButLastNormal(local);
      GoneNamesNormal(local[..n], upstream, mapping);
      SnocNormal(local, r);
      var all := GoneNames(local, upstream, mapping);
      assert all == r || all == r + [local[n]];
    }
  }

  lemma DetectedNormal(local: seq<string>, upstream: seq<string>, ignored: seq<string>, mapping: map<string, string>,
                       matches: Matcher)
    ensures Normal(Detected(local, upstream, ignored, mapping, matches).0)
    ensures Normal(Detected(local, upstream, ignored, mapping, matches).1)
  {
    NormalizeNormal(upstream);
    NormalizeNormal(local);
    NewNamesNormal(Normalize(upstream), Normalize(local), Normalize(ignored), mapping, matches);
    GoneNamesNormal(Normalize(local), Normalize(upstream), mapping);
  }

  lemma HeadIn(xs: seq<string>)
    ensures xs != [] ==> xs[0] in xs
  {
  }

  lemma NoNames(xs: seq<string>)
    requires forall x :: x !in xs
    ensures xs == []
  {
    HeadIn(xs);
  }

  /** Applying everything detected converges: detecting again on the applied list, against the same
      upstream, ignore list and mapping, finds nothing to add and nothing to remove. */
  lemma Converges(local: seq<string>, upstream: seq<string>, ignored: seq<string>, mapping: map<string, string>,
                  matches: Matcher)
    ensures
      var (add, remove) := Detected(local, upstream, ignored, mapping, matches);
      Detected(Applied(local, add, remove), upstream, ignored, mapping, matches) == ([], [])
  {
    var (add, remove) := Detected(local, upstream, ignored, mapping, matches);
    DetectedNormal(local, upstream, ignored, mapping, matches);
    AppliedNames(local, add, remove);
    NormalizeFixed(add);
    NormalizeFixed(remove);
    var next := Applied(local, add, remove);
    NormalizeFixed(next);
    var (add', remove') := Detected(next, upstream, ignored, mapping, matches);
    NoNames(add');
    NoNames(remove');
  }

  // ------------------------------------------------------------ the stored channel

  datatype Row = Row(models: string, detected: seq<string>, removed: seq<string>, ignored: seq<string>,
                     lastCheck: int, autoSync: bool)

  function GetModels(row: Row): seq<string> {
    Text.Parse(row.models, ',')
  }

  function Local(row: Row): seq<string> {
    Normalize(GetModels(row))
  }

  /** One check: what the caller asks for, the clock, what fetching the upstream list gave (None
      when it failed), the alias mapping, and whether the row could be stored. */
  datatype Check = Check(force: bool, allowAutoApply: bool, now: int, minInterval: int,
                         upstream: Option<seq<string>>, mapping: map<string, string>, stored: bool)

  datatype Request = Request(add: seq<string>, ignore: seq<string>, remove: seq<string>, now: int, stored: bool)

  predicate TooSoon(row: Row, c: Check) {
    !c.force && row.lastCheck > 0 && c.now - row.lastCheck < c.minInterval
  }

  function Pending(row: Row, c: Check, matches: Matcher): (seq<string>, seq<string>)
    requires c.upstream.Some?
  {
    Detected(GetModels(row), c.upstream.value, row.ignored, c.mapping, matches)
  }

  function Checked(row: Row, c: Check, matches: Matcher): Row {
    if TooSoon(row, c) || !c.stored then row
    else if c.upstream.None? then row.(lastCheck := c.now)
    else
      var (add, remove) := Pending(row, c, matches);
      if c.allowAutoApply && row.autoSync && add != [] then
        row.(models := Text.Join(Merged(Local(row), add), ','), detected := [], removed := remove, lastCheck := c.now)
      else
        row.(detected := add, removed := remove, lastCheck := c.now)
  }

  /** The parts of a request that are pending and so take effect. */
  function ChosenAdd(row: Row, r: Request): seq<string> {
    Intersected(r.add, Normalize(row.detected))
  }

  function ChosenIgnore(row: Row, r: Request): seq<string> {
    Intersected(r.ignore, Normalize(row.detected))
  }

  function ChosenRemove(row: Row, r: Request): seq<string> {
    Subtracted(Intersected(r.remove, Normalize(row.removed)), ChosenAdd(row, r))
  }

  function NextModels(row: Row, r: Request): seq<string> {
    Applied(Local(row), ChosenAdd(row, r), ChosenRemove(row, r))
  }

  function NextIgnored(row: Row, r: Request): seq<string> {
    var ignored := Merged(row.ignored, ChosenIgnore(row, r));
    if ChosenAdd(row, r) == [] then ignored else Subtracted(ignored, ChosenAdd(row, r))
  }

  function RemainingAdd(row: Row, r: Request): seq<string> {
    Subtracted(Normalize(row.detected), ChosenAdd(row, r) + ChosenIgnore(row, r))
  }

  function RemainingRemove(row: Row, r: Request): seq<string> {
    Subtracted(Normalize(row.removed), ChosenRemove(row, r))
  }

  function Requested(row: Row, r: Request): Row {
    if !r.stored then row
    else
      Row(if NextModels(row, r) == Local(row) then row.models else Text.Join(NextModels(row, r), ','),
          RemainingAdd(row, r), RemainingRemove(row, r), NextIgnored(row, r), r.now, row.autoSync)
  }

  // Nothing is locked between loading a row and storing what became of it. What is stored overwrites
  // all settings with those computed from the row that was read, and the models only if they changed.

  function Overlay(row: Row, next: Row, writesModels: bool): Row {
    next.(models := if writesModels then next.models else row.models)
  }

  function CheckStored(row: Row, read: Row, c: Check, matches: Matcher): Row {
    if TooSoon(read, c) || !c.stored then row
    else Overlay(row, Checked(read, c, matches), AutoApplies(read, c, matches))
  }

  function ApplyStored(row: Row, read: Row, r: Request): Row {
    if !r.stored then row else Overlay(row, Requested(read, r), NextModels(read, r) != Local(read))
  }

  /** A check takes effect if and only if it is forced, the first one, or at least `minInterval` after the
      last. It then sets the time. A failed fetch changes nothing else. After a fetch the pending removals
      are recorded, and the additions either adopted or recorded: adopted exactly if that is allowed,
      switched on and there are any. The ignore list stays. */
  lemma CheckEffect(row: Row, c: Check, matches: Matcher)
    requires c.stored
    ensures
      var next := Checked(row, c, matches);
      if c.force || row.lastCheck <= 0 || c.now - row.lastCheck >= c.minInterval then
        && next.lastCheck == c.now && next.ignored == row.ignored && next.autoSync == row.autoSync
        && (c.upstream.None? ==> next == row.(lastCheck := c.now))
        && (c.upstream.Some? ==>
              var (add, remove) := Detected(GetModels(row), c.upstream.value, row.ignored, c.mapping, matches);
              && next.removed == remove
              && if c.allowAutoApply && row.autoSync && add != []
                 then next.detected == [] && next.models == Text.Join(Merged(Local(row), add), ',')
                 else next.detected == add && next.models == row.models)
      else next == row
  {
  }

  /** What a check or an apply computed from the row it read is stored over a row that may be newer: all
      settings, but the models only if it changed them. */
  lemma StoreEffect(row: Row, read: Row, c: Check, r: Request, matches: Matcher)
    ensures
      var next := CheckStored(row, read, c, matches);
      if c.stored && (c.force || read.lastCheck <= 0 || c.now - read.lastCheck >= c.minInterval) then
        && next.(models := row.models) == Checked(read, c, matches).(models := row.models)
        && next.models ==
           if && c.upstream.Some? && c.allowAutoApply && read.autoSync
              && Detected(GetModels(read), c.upstream.value, read.ignored, c.mapping, matches).0 != []
           then Checked(read, c, matches).models else row.models
      else next == row
    ensures
      var next := ApplyStored(row, read, r);
      if r.stored then
        && next.(models := row.models) == Requested(read, r).(models := row.models)
        && next.models ==
           if NextModels(read, r) == Local(read) then row.models else Text.Join(NextModels(read, r), ',')
      else next == row
  {
  }

  /** An apply sets the time too, and leaves the switch for automatic adoption alone. */
  lemma ApplyEffect(row: Row, r: Request)
    ensures
      var next := Requested(row, r);
      if r.stored then next.lastCheck == r.now && next.autoSync == row.autoSync else next == row
  {
  }

  /** An entry that starts with "regex:" is a pattern, trimmed after the prefix; any other entry is the
      one name it ignores. */
  lemma EntryExact(body: string, entry: string, name: string, matches: Matcher)
    ensures EntryIgnores("regex:" + body, name, matches) <==> matches(Text.Trim(body), name)
    ensures !("regex:" <= entry) ==> (EntryIgnores(entry, name, matches) <==> entry == name)
  {
    assert ("regex:" + body)[6..] == body;
  }

  /** What is pending, by trimmed names: to be added is what the upstream lists, the channel does not, no alias
      leads to and no entry ignores; to be removed is what the channel lists, is no alias, and the upstream does not. */
  lemma DetectedExact(local: seq<string>, upstream: seq<string>, ignored: seq<string>, mapping: map<string, string>,
                      matches: Matcher, x: string)
    ensures x in Detected(local, upstream, ignored, mapping, matches).0 <==>
            && x != "" && Lists(upstream, x) && !Lists(local, x) && (forall a :: a in mapping ==> mapping[a] != x)
            && forall i :: 0 <= i < |ignored| && Text.Trim(ignored[i]) != "" ==>
                 !EntryIgnores(Text.Trim(ignored[i]), x, matches)
    ensures x in Detected(local, upstream, ignored, mapping, matches).1 <==>
            x != "" && Lists(local, x) && !Lists(upstream, x) && x !in mapping
  {
    NormalizedFrom(local, x);
    NormalizedFrom(upstream, x);
    IgnoredExact(ignored, x, matches);
  }

  /** Some item is the name once trimmed. */
  ghost predicate Lists(xs: seq<string>, x: string) {
    exists i :: 0 <= i < |xs| && Text.Trim(xs[i]) == x
  }

  lemma IgnoredExact(ignored: seq<string>, x: string, matches: Matcher)
    ensures Ignored(Normalize(ignored), x, matches) <==>
            exists i :: 0 <= i < |ignored| && Text.Trim(ignored[i]) != ""
                        && EntryIgnores(Text.Trim(ignored[i]), x, matches)
  {
    var entries := Normalize(ignored);
    if Ignored(entries, x, matches) {
      var k :| 0 <= k < |entries| && EntryIgnores(entries[k], x, matches);
      NormalizedFrom(ignored, entries[k]);
    }
    if exists i :: 0 <= i < |ignored| && Text.Trim(ignored[i]) != ""
                   && EntryIgnores(Text.Trim(ignored[i]), x, matches) {
      var i :| 0 <= i < |ignored| && Text.Trim(ignored[i]) != "" && EntryIgnores(Text.Trim(ignored[i]), x, matches);
      NormalizedFrom(ignored, Text.Trim(ignored[i]));
      var k :| 0 <= k < |entries| && entries[k] == Text.Trim(ignored[i]);
    }
  }

  /** Stored onto the row that was read, a check and an apply have their plain effect. */
  lemma StoredAtOnce(row: Row, c: Check, r: Request, matches: Matcher)
    ensures CheckStored(row, row, c, matches) == Checked(row, c, matches)
    ensures ApplyStored(row, row, r) == Requested(row, r)
  {
  }

  predicate AutoApplies(row: Row, c: Check, matches: Matcher) {
    !TooSoon(row, c) && c.upstream.Some? && c.allowAutoApply && row.autoSync && Pending(row, c, matches).0 != []
  }

  /** Detected additions are news: merging them in always grows the list, by exactly their number. */
  lemma MergeGrows(row: Row, c: Check, matches: Matcher)
    requires c.upstream.Some?
    ensures |Merged(Local(row), Pending(row, c, matches).0)| == |Local(row)| + |Pending(row, c, matches).0|
  {
    var add := Pending(row, c, matches).0;
    DetectedNormal(GetModels(row), c.upstream.value, row.ignored, c.mapping, matches);
    NormalizeFixed(add);
    NormalizeNormal(GetModels(row));
    NormalizeFixed(Local(row));
    MinusDisjoint(add, Local(row));
  }

  lemma {:induction false} MinusDisjoint(xs: seq<string>, ys: seq<string>)
    requires forall x :: x in xs ==> x !in ys
    ensures Minus(xs, ys) == xs
  {
    if xs != [] {
      var n := |xs| - 1;
      MinusDisjoint(xs[..n], ys);
      assert xs[n] in xs && xs == xs[..n] + [xs[n]];
    }
  }

  class Channel {
    var row: Row

    constructor (row: Row)
      ensures this.row == row
    {
      this.row := row;
    }

    /** `read` is the row as it was loaded, before the upstream list was fetched. */
    method CheckAndPersist(read: Row, c: Check, matches: Matcher)
      returns (changed: bool, autoAdded: nat, failed: bool)
      modifies this
      ensures row == CheckStored(old(row), read, c, matches)
      ensures changed <==> c.stored && autoAdded > 0
      ensures autoAdded == if AutoApplies(read, c, matches) then |Pending(read, c, matches).0| else 0
      ensures failed <==>
              && (c.force || read.lastCheck <= 0 || c.now - read.lastCheck >= c.minInterval)
              && (!c.stored || c.upstream.None?)
    {
      changed, autoAdded, failed := false, 0, false;
      if !c.force {
        if read.lastCheck > 0 && c.now - read.lastCheck < c.minInterval {
          return;
        }
      }
      var next := read.(lastCheck := c.now);
      if c.upstream.None? {
        if c.stored {
          row := next.(models := row.models);
        }
        return false, 0, true;
      }
      var add, remove := CollectPending(GetModels(read), c.upstream.value, read.ignored, c.mapping, matches);
      if c.allowAutoApply && read.autoSync && |add| > 0 {
        var origin := Normalize(GetModels(read));
        var merged := MergeModelNames(origin, add);
        MergeGrows(read, c, matches);
        if |merged| > |origin| {
          next := next.(models := Text.Join(merged, ','));
          autoAdded := |merged| - |origin|;
          changed := true;
        }
        next := next.(detected := []);
      } else {
        next := next.(detected := add);
      }
      next := next.(removed := remove);
      if !c.stored {
        return false, autoAdded, true;
      }
      row := if changed then next else next.(models := row.models);
    }

    method Apply(read: Row, r: Request)
      returns (added: seq<string>, removed: seq<string>, remaining: seq<string>, remainingRemove: seq<string>,
               changed: bool)
      modifies this
      ensures row == ApplyStored(old(row), read, r)
      ensures r.stored ==>
                && added == ChosenAdd(read, r) && removed == ChosenRemove(read, r)
                && remaining == row.detected && remainingRemove == row.removed
                && (changed <==> NextModels(read, r) != Local(read))
      ensures !r.stored ==> added == removed == remaining == remainingRemove == [] && !changed
    {
      var pendingAdd := Normalize(read.detected);
      var pendingRemove := Normalize(read.removed);
      added := IntersectModelNames(r.add, pendingAdd);
      var ignore := IntersectModelNames(r.ignore, pendingAdd);
      removed := IntersectModelNames(r.remove, pendingRemove);
      removed := SubtractModelNames(removed, added);
      var origin := Normalize(GetModels(read));
      var next := Applied(origin, added, removed);
      changed := origin != next;
      var ignored := MergeModelNames(read.ignored, ignore);
      if |added| > 0 {
        ignored := SubtractModelNames(ignored, added);
      }
      remaining := SubtractModelNames(pendingAdd, added + ignore);
      remainingRemove := SubtractModelNames(pendingRemove, removed);
      if !r.stored {
        return [], [], [], [], false;
      }
      var models := row.models;
      if changed {
        models := Text.Join(next, ',');
      }
      row := Row(models, remaining, remainingRemove, ignored, r.now, read.autoSync);
    }
  }

  // ------------------------------------------------------ what the comma costs

  /** Names that survive being stored in a comma-separated text. */
  ghost predicate Storable(xs: seq<string>) {
    forall x :: x in xs ==> ',' !in x
  }

  lemma LocalStorable(row: Row)
    ensures Normal(Local(row)) && Storable(Local(row))
  {
    NormalizeNormal(GetModels(row));
    forall x | x in Local(row)
      ensures ',' !in x
    {
      var i := TrimmedFrom(GetModels(row), x);
      Text.SplitClean(Text.Strip(row.models, ','), ',');
      Text.TrimChars(GetModels(row)[i], ',');
    }
  }

  /** A normal list is the list read back after storing it, if and only if no name has a comma. */
  lemma StoreIffStorable(row: Row, names: seq<string>)
    requires Normal(names)
    ensures Local(row.(models := Text.Join(names, ','))) == names <==> Storable(names)
  {
    var after := row.(models := Text.Join(names, ','));
    if Storable(names) {
      assert forall i :: 0 <= i < |names| ==> names[i] in names;
      Text.RoundTrip(names, ',');
      NormalizeFixed(names);
    } else {
      LocalStorable(after);
    }
  }

  lemma NormalizedStorable(xs: seq<string>)
    requires Storable(xs)
    ensures Storable(Normalize(xs))
  {
    forall x | x in Normalize(xs)
      ensures ',' !in x
    {
      var i := TrimmedFrom(xs, x);
      assert xs[i] in xs;
      Text.TrimChars(xs[i], ',');
    }
  }

  /** The names the channel serves once the one name a is stored: a itself, unless it has commas. */
  function Pieces(a: string): seq<string> {
    Normalize(Text.Parse(a, ','))
  }

  /** x is served once these names are stored. */
  predicate FallsInto(names: seq<string>, x: string) {
    exists i :: 0 <= i < |names| && x in Pieces(names[i])
  }

  lemma NormalizedFrom(xs: seq<string>, x: string)
    ensures x in Normalize(xs) <==> x != "" && exists i :: 0 <= i < |xs| && Text.Trim(xs[i]) == x
  {
    if x in Normalize(xs) {
      var i := TrimmedFrom(xs, x);
    } else if x != "" && exists i :: 0 <= i < |xs| && Text.Trim(xs[i]) == x {
      var i :| 0 <= i < |xs| && Text.Trim(xs[i]) == x;
      TrimmedHas(xs, i);
    }
  }

  /** Storing any names: what is read back is what the names fall into. */
  lemma StoredNames(row: Row, names: seq<string>, x: string)
    ensures x in Local(row.(models := Text.Join(names, ','))) <==> FallsInto(names, x)
  {
    var all := Text.Parse(Text.Join(names, ','), ',');
    NormalizedFrom(all, x);
    if x in Normalize(all) {
      var k :| 0 <= k < |all| && Text.Trim(all[k]) == x;
      Text.JoinPieces(names, ',', all[k]);
      var i :| 0 <= i < |names| && all[k] in Text.Parse(names[i], ',');
      NormalizedFrom(Text.Parse(names[i], ','), x);
    }
    if FallsInto(names, x) {
      var i :| 0 <= i < |names| && x in Pieces(names[i]);
      var parts := Text.Parse(names[i], ',');
      NormalizedFrom(parts, x);
      var k :| 0 <= k < |parts| && Text.Trim(parts[k]) == x;
      Text.JoinPieces(names, ',', parts[k]);
      assert parts[k] in all;
    }
  }

  lemma WholePiece(a: string)
    requires IsName(a) && ',' !in a
    ensures Pieces(a) == [a]
  {
    assert Text.Join([a], ',') == a;
    Text.RoundTrip([a], ',');
    NormalizeFixed([a]);
  }

  lemma WholePieces(names: seq<string>, x: string)
    requires Normal(names) && Storable(names)
    ensures FallsInto(names, x) <==> x in names
  {
    forall i | 0 <= i < |names|
      ensures Pieces(names[i]) == [names[i]]
    {
      assert names[i] in names;
      WholePiece(names[i]);
    }
  }

  lemma FallsIntoEither(names: seq<string>, xs: seq<string>, ys: seq<string>, x: string)
    requires forall a :: a in names <==> a in xs || a in ys
    ensures FallsInto(names, x) <==> FallsInto(xs, x) || FallsInto(ys, x)
  {
    FallsIntoMore(names, xs, ys, x);
    if FallsInto(xs, x) {
      var i :| 0 <= i < |xs| && x in Pieces(xs[i]);
      assert xs[i] in names;
    } else if FallsInto(ys, x) {
      var i :| 0 <= i < |ys| && x in Pieces(ys[i]);
      assert ys[i] in names;
    }
  }

  lemma FallsIntoMore(names: seq<string>, xs: seq<string>, ys: seq<string>, x: string)
    requires forall a :: a in names ==> a in xs || a in ys
    ensures FallsInto(names, x) ==> FallsInto(xs, x) || FallsInto(ys, x)
  {
    if FallsInto(names, x) {
      var i :| 0 <= i < |names| && x in Pieces(names[i]);
      assert names[i] in xs || names[i] in ys;
    }
  }

  // ---------------------------------------------------------------- one step

  ghost predicate Tidy(row: Row) {
    Normal(row.detected) && Normal(row.removed)
  }

  /** What a request chooses, in terms of the pending lists. */
  lemma Chosen(row: Row, r: Request)
    requires Tidy(row)
    ensures forall x :: x in ChosenAdd(row, r) <==> x in Normalize(r.add) && x in row.detected
    ensures forall x :: x in ChosenIgnore(row, r) <==> x in Normalize(r.ignore) && x in row.detected
    ensures forall x :: x in ChosenRemove(row, r) <==>
                        x in Normalize(r.remove) && x in row.removed && x !in ChosenAdd(row, r)
    ensures Normal(ChosenAdd(row, r)) && Normal(ChosenIgnore(row, r)) && Normal(ChosenRemove(row, r))
  {
    NormalizeFixed(row.detected);
    NormalizeFixed(row.removed);
    IntersectedNormal(r.add, row.detected);
    IntersectedNormal(r.ignore, row.detected);
    IntersectedNormal(r.remove, row.removed);
    NormalizeFixed(ChosenAdd(row, r));
    NormalizeFixed(Intersected(r.remove, row.removed));
    SubtractedNormal(Intersected(r.remove, row.removed), ChosenAdd(row, r));
  }

  /** Each apply splits the pending lists into what was chosen and what remains, losing nothing. */
  lemma ApplySplits(row: Row, r: Request)
    requires Tidy(row)
    ensures forall x :: x in row.detected <==>
                        x in ChosenAdd(row, r) || x in ChosenIgnore(row, r) || x in RemainingAdd(row, r)
    ensures forall x :: x in RemainingAdd(row, r) ==> x !in ChosenAdd(row, r) && x !in ChosenIgnore(row, r)
    ensures forall x :: x in row.removed <==> x in ChosenRemove(row, r) || x in RemainingRemove(row, r)
    ensures forall x :: x in RemainingRemove(row, r) ==> x !in ChosenRemove(row, r)
    ensures Normal(RemainingAdd(row, r)) && Normal(RemainingRemove(row, r))
  {
    Chosen(row, r);
    NormalizeFixed(row.detected);
    NormalizeFixed(row.removed);
    SubtractedNormal(row.detected, ChosenAdd(row, r) + ChosenIgnore(row, r));
    SubtractedNormal(row.removed, ChosenRemove(row, r));
    NormalizeFixed(ChosenRemove(row, r));
    ConcatNames(ChosenAdd(row, r), ChosenIgnore(row, r));
  }

  lemma ConcatNames(xs: seq<string>, ys: seq<string>)
    requires Normal(xs) && Normal(ys)
    ensures forall x :: x in Normalize(xs + ys) <==> x in xs || x in ys
  {
    forall x | x in xs || x in ys
      ensures x in Normalize(xs + ys)
    {
      assert x in xs + ys;
      var i :| 0 <= i < |xs + ys| && (xs + ys)[i] == x;
      NamesAreTrimmed(x);
      TrimmedHas(xs + ys, i);
    }
    forall x | x in Normalize(xs + ys)
      ensures x in xs || x in ys
    {
      var i := TrimmedFrom(xs + ys, x);
      var z := (xs + ys)[i];
      assert z in xs || z in ys;
      NamesAreTrimmed(z);
    }
  }

  lemma PendingNames(row: Row, c: Check, matches: Matcher)
    requires c.upstream.Some?
    ensures
      var (add, remove) := Pending(row, c, matches);
      && Normal(add) && Normal(remove)
      && (forall x :: x in add ==> x !in Local(row)) && (forall x :: x in remove ==> x in Local(row))
  {
    DetectedNormal(GetModels(row), c.upstream.value, row.ignored, c.mapping, matches);
  }

  lemma ServedAfterCheck(row: Row, c: Check, matches: Matcher, x: string)
    requires c.upstream.Some?
    ensures
      var add := Pending(row, c, matches).0;
      x in Local(row.(models := Text.Join(Merged(Local(row), add), ','))) <==> x in Local(row) || FallsInto(add, x)
  {
    var add := Pending(row, c, matches).0;
    PendingNames(row, c, matches);
    LocalStorable(row);
    NormalizeFixed(Local(row));
    NormalizeFixed(add);
    MergedNormal(Local(row), add);
    StoredNames(row, Merged(Local(row), add), x);
    FallsIntoEither(Merged(Local(row), add), Local(row), add, x);
    WholePieces(Local(row), x);
  }

  lemma ServedAfterApply(row: Row, r: Request, x: string)
    requires Tidy(row) && r.stored
    ensures x in Local(Requested(row, r)) <==>
            (x in Local(row) && x !in ChosenRemove(row, r)) || FallsInto(ChosenAdd(row, r), x)
  {
    var next, kept := NextModels(row, r), Minus(Local(row), ChosenRemove(row, r));
    Chosen(row, r);
    LocalStorable(row);
    NormalizeFixed(Local(row));
    NormalizeFixed(ChosenAdd(row, r));
    NormalizeFixed(ChosenRemove(row, r));
    AppliedNames(Local(row), ChosenAdd(row, r), ChosenRemove(row, r));
    StoredNames(row, next, x);
    WholePieces(Local(row), x);
    assert x in Local(Requested(row, r)) <==> FallsInto(next, x);
    FallsIntoEither(next, kept, ChosenAdd(row, r), x);
    MinusNormal(Local(row), ChosenRemove(row, r));
    WholePieces(kept, x);
  }

  // ----------------------------------------------------------- consistent rows

  /** Pending lists are normal; what is to be added is not there, what is to be removed is. */
  ghost predicate Consistent(row: Row) {
    && Tidy(row)
    && (forall x :: x in row.detected ==> x !in Local(row))
    && (forall x :: x in row.removed ==> x in Local(row))
  }

  /** A name that stays pending is served all the same, as a piece of a chosen name. */
  predicate LeavesPiece(row: Row, r: Request) {
    r.stored && exists j :: 0 <= j < |RemainingAdd(row, r)| && FallsInto(ChosenAdd(row, r), RemainingAdd(row, r)[j])
  }

  /** No check, be it failed, early or automatic, makes the row inconsistent. */
  lemma CheckConsistent(row: Row, c: Check, matches: Matcher)
    requires Consistent(row)
    ensures Consistent(Checked(row, c, matches))
  {
    if c.upstream.Some? {
      PendingNames(row, c, matches);
      forall x | x in Local(row)
        ensures x in Local(Checked(row, c, matches))
      {
        ServedAfterCheck(row, c, matches, x);
      }
    }
  }

  lemma RemovalsServed(row: Row, r: Request)
    requires Consistent(row) && r.stored
    ensures forall x :: x in RemainingRemove(row, r) ==> x in Local(Requested(row, r))
  {
    ApplySplits(row, r);
    forall x | x in RemainingRemove(row, r)
      ensures x in Local(Requested(row, r))
    {
      ServedAfterApply(row, r, x);
    }
  }

  lemma AdditionsServed(row: Row, r: Request, x: string)
    requires Consistent(row) && r.stored && x in RemainingAdd(row, r)
    ensures x in Local(Requested(row, r)) <==> FallsInto(ChosenAdd(row, r), x)
  {
    ApplySplits(row, r);
    ServedAfterApply(row, r, x);
  }

  lemma ApplyBreaks(row: Row, r: Request)
    requires Consistent(row) && LeavesPiece(row, r)
    ensures !Consistent(Requested(row, r))
  {
    var rest := RemainingAdd(row, r);
    var j :| 0 <= j < |rest| && FallsInto(ChosenAdd(row, r), rest[j]);
    var x := rest[j];
    assert x in rest;
    AdditionsServed(row, r, x);
    assert x in Requested(row, r).detected;
  }

  lemma AdditionsUnserved(row: Row, r: Request)
    requires Consistent(row) && r.stored && !LeavesPiece(row, r)
    ensures forall x :: x in RemainingAdd(row, r) ==> x !in Local(Requested(row, r))
  {
    var rest := RemainingAdd(row, r);
    forall x | x in rest
      ensures x !in Local(Requested(row, r))
    {
      AdditionsServed(row, r, x);
      var j :| 0 <= j < |rest| && rest[j] == x;
      assert !FallsInto(ChosenAdd(row, r), rest[j]);
    }
  }

  /** An apply keeps the row consistent if and only if no name left pending is a piece of a chosen one. */
  lemma ApplyConsistentIff(row: Row, r: Request)
    requires Consistent(row)
    ensures Consistent(Requested(row, r)) <==> !LeavesPiece(row, r)
  {
    if LeavesPiece(row, r) {
      ApplyBreaks(row, r);
    } else if r.stored {
      ApplySplits(row, r);
      RemovalsServed(row, r);
      AdditionsUnserved(row, r);
    }
  }

  lemma NextIgnoredNormal(row: Row, r: Request)
    ensures Normal(NextIgnored(row, r))
  {
    var merged := Merged(row.ignored, ChosenIgnore(row, r));
    MergedNormal(row.ignored, ChosenIgnore(row, r));
    SubtractedNormal(merged, ChosenAdd(row, r));
  }

  ghost predicate StorableUpstream(c: Check) {
    c.upstream.Some? ==> Storable(c.upstream.value)
  }

  lemma PendingStorable(row: Row, c: Check, matches: Matcher)
    requires c.upstream.Some? && Storable(c.upstream.value)
    ensures Storable(Pending(row, c, matches).0)
  {
    NormalizedStorable(c.upstream.value);
  }

  lemma StorableApplies(row: Row, r: Request)
    requires Tidy(row) && Storable(row.detected)
    ensures !LeavesPiece(row, r)
  {
    Chosen(row, r);
    ApplySplits(row, r);
    forall j | 0 <= j < |RemainingAdd(row, r)|
      ensures !FallsInto(ChosenAdd(row, r), RemainingAdd(row, r)[j])
    {
      WholePieces(ChosenAdd(row, r), RemainingAdd(row, r)[j]);
      assert RemainingAdd(row, r)[j] in RemainingAdd(row, r);
    }
  }

  /** A comma breaks this: applying the one name "x,y" while "x" stays pending. */
  lemma CommaBreaksConsistency(row: Row, r: Request, x: string, y: string)
    requires Consistent(row) && x in row.detected && Storable([x]) && r.stored
    requires x + [','] + y in ChosenAdd(row, r) && x !in ChosenAdd(row, r) && x !in ChosenIgnore(row, r)
    ensures !Consistent(Requested(row, r))
  {
    var both := x + [','] + y;
    var i :| 0 <= i < |ChosenAdd(row, r)| && ChosenAdd(row, r)[i] == both;
    FirstPiece(x, y);
    ApplySplits(row, r);
    var j :| 0 <= j < |RemainingAdd(row, r)| && RemainingAdd(row, r)[j] == x;
    assert FallsInto(ChosenAdd(row, r), RemainingAdd(row, r)[j]);
    ApplyConsistentIff(row, r);
  }

  lemma FirstPiece(x: string, y: string)
    requires IsName(x) && ',' !in x
    ensures x in Pieces(x + [','] + y)
  {
    var both := x + [','] + y;
    Text.SplitAtom(x, ',');
    Text.SplitAppend(x, y, ',');
    assert Text.Split(both, ',')[0] == x;
    Text.StripPieces(both, ',', x);
    var parts := Text.Parse(both, ',');
    var k :| 0 <= k < |parts| && parts[k] == x;
    NamesAreTrimmed(x);
    NormalizedFrom(parts, x);
  }

  // ---------------------------------------------------------------- the ignore list

  /** m is on the ignore list as itself, and not proposed. */
  ghost predicate Unproposed(row: Row, m: string) {
    m in Normalize(row.ignored) && m !in row.detected
  }

  /** ... nor served. */
  ghost predicate Suppressed(row: Row, m: string) {
    Unproposed(row, m) && m !in Local(row)
  }

  lemma IgnoredByItself(entries: seq<string>, m: string, matches: Matcher)
    requires m in entries && EntryIgnores(m, m, matches)
    ensures Ignored(entries, m, matches)
  {
    var i :| 0 <= i < |entries| && entries[i] == m;
    assert EntryIgnores(entries[i], m, matches);
  }

  lemma NextIgnoredNames(row: Row, r: Request)
    requires Tidy(row)
    ensures forall x :: x in Normalize(NextIgnored(row, r)) <==>
                        (x in Normalize(row.ignored) || x in ChosenIgnore(row, r)) && x !in ChosenAdd(row, r)
  {
    Chosen(row, r);
    var merged := Merged(row.ignored, ChosenIgnore(row, r));
    NormalizeFixed(ChosenIgnore(row, r));
    NormalizeFixed(ChosenAdd(row, r));
    MergedNormal(row.ignored, ChosenIgnore(row, r));
    NormalizeFixed(merged);
    SubtractedNormal(merged, ChosenAdd(row, r));
    NormalizeFixed(Subtracted(merged, ChosenAdd(row, r)));
  }

  /** An ignored model can come to be served: with automatic adoption, a check against an upstream that serves "m,y"
      adopts that name, and m as a piece of it. */
  lemma IgnoredCanBeServed(row: Row, matches: Matcher, m: string, y: string) returns (c: Check)
    requires Tidy(row) && Suppressed(row, m) && row.autoSync && Storable([m])
    requires IsName(y) && !Ignored(Normalize(row.ignored), m + [','] + y, matches)
    ensures m in Local(Checked(row, c, matches))
  {
    var both := m + [','] + y;
    c := Check(true, true, 0, 0, Some([both]), map[], true);
    NormalizeNormal(row.ignored);
    assert m in [m];
    JoinedName(m, y);
    FirstPiece(m, y);
    CommaDetected(row, c, both, matches);
    AdoptedPiece(row, c, matches, both, m);
  }

  /** A name that is adopted is served, piece by piece. */
  lemma AdoptedPiece(row: Row, c: Check, matches: Matcher, name: string, x: string)
    requires c.force && c.stored && c.allowAutoApply && row.autoSync && c.upstream.Some?
    requires name in Pending(row, c, matches).0 && x in Pieces(name)
    ensures x in Local(Checked(row, c, matches))
  {
    var add := Pending(row, c, matches).0;
    var i :| 0 <= i < |add| && add[i] == name;
    assert FallsInto(add, x);
    ServedAfterCheck(row, c, matches, x);
  }

  lemma JoinedName(x: string, y: string)
    requires IsName(x) && IsName(y)
    ensures IsName(x + [','] + y) && ',' in x + [','] + y
  {
    assert (x + [','] + y)[|x|] == ',';
  }

  /** No served name has a comma, so a name with one is news. */
  lemma CommaDetected(row: Row, c: Check, name: string, matches: Matcher)
    requires IsName(name) && ',' in name && !Ignored(Normalize(row.ignored), name, matches)
    requires c.upstream == Some([name]) && c.mapping == map[]
    ensures name in Pending(row, c, matches).0
  {
    NormalizeFixed([name]);
    LocalStorable(row);
  }

  // ------------------------------------------- converging through the stored row

  /** The check that found the pending lists, run again with force and without adoption. */
  function Again(c: Check): Check {
    c.(force := true, allowAutoApply := false)
  }

  function ApplyAll(row: Row, now: int): Request {
    Request(row.detected, [], row.removed, now, true)
  }

  /** Every upstream name that was ignored still is, once the added names are struck from the list. */
  ghost predicate PatternsSurvive(row: Row, c: Check, matches: Matcher)
    requires c.upstream.Some?
  {
    forall u :: u in Normalize(c.upstream.value) && u !in Local(row) && u !in c.mapping.Values
                && Ignored(Normalize(row.ignored), u, matches) ==>
                Ignored(Minus(Normalize(row.ignored), Pending(row, c, matches).0), u, matches)
  }

  /** The round through storage: check, apply all, check again against the same upstream. Nothing is
      pending afterwards if and only if no detected name has a comma, and adding the names took no
      pattern away that was still needed. */
  lemma RoundConverges(row: Row, c: Check, now: int, matches: Matcher)
    requires c.upstream.Some? && c.stored
    ensures
      var found := Checked(row, Again(c), matches);
      var applied := Requested(found, ApplyAll(found, now));
      var again := Checked(applied, Again(c), matches);
      again.detected == [] && again.removed == [] <==>
      Storable(Pending(row, c, matches).0) && PatternsSurvive(row, c, matches)
  {
    var found := Checked(row, Again(c), matches);
    var (add, remove) := Pending(row, c, matches);
    assert found.detected == add && found.removed == remove && Local(found) == Local(row);
    DetectedNormal(GetModels(row), c.upstream.value, row.ignored, c.mapping, matches);
    var applied := Requested(found, ApplyAll(found, now));
    if Storable(add) {
      RoundApplied(found, now);
      RoundIgnored(found, now);
      RoundPending(row, applied, c, matches);
    } else {
      var x :| x in add && ',' in x;
      RoundIgnored(found, now);
      LocalStorable(applied);
      FewerIgnores(Normalize(applied.ignored), Normalize(row.ignored), x, matches);
      assert x in Pending(applied, c, matches).0;
    }
  }

  /** After all of add was applied and struck from the ignore list. */
  lemma RoundPending(row: Row, applied: Row, c: Check, matches: Matcher)
    requires c.upstream.Some?
    requires
      var (add, remove) := Pending(row, c, matches);
      && (forall x :: x in Local(applied) <==> x in add || (x in Local(row) && x !in remove))
      && (forall x :: x in Normalize(applied.ignored) <==> x in Normalize(row.ignored) && x !in add)
    ensures Pending(applied, c, matches) == ([], []) <==> PatternsSurvive(row, c, matches)
  {
    var add := Pending(row, c, matches).0;
    var (add', remove') := Pending(applied, c, matches);
    NoNames(remove');
    SameIgnores(Normalize(applied.ignored), Minus(Normalize(row.ignored), add), matches);
    if PatternsSurvive(row, c, matches) {
      NoNames(add');
    } else {
      var u :| u in Normalize(c.upstream.value) && u !in Local(row) && u !in c.mapping.Values
               && Ignored(Normalize(row.ignored), u, matches)
               && !Ignored(Minus(Normalize(row.ignored), add), u, matches);
      assert u in add';
    }
  }

  lemma RoundIgnored(row: Row, now: int)
    requires Tidy(row)
    ensures forall x :: x in Normalize(Requested(row, ApplyAll(row, now)).ignored) <==>
                        x in Normalize(row.ignored) && x !in row.detected
  {
    NextIgnoredNames(row, ApplyAll(row, now));
    Chosen(row, ApplyAll(row, now));
    NormalizeFixed(row.detected);
  }

  lemma RoundApplied(row: Row, now: int)
    requires Tidy(row) && Storable(row.detected)
    ensures forall x :: x in Local(Requested(row, ApplyAll(row, now))) <==>
                        x in row.detected || (x in Local(row) && x !in row.removed)
  {
    var r := ApplyAll(row, now);
    Chosen(row, r);
    NormalizeFixed(row.detected);
    NormalizeFixed(row.removed);
    forall x
      ensures x in Local(Requested(row, r)) <==> x in row.detected || (x in Local(row) && x !in row.removed)
    {
      ServedAfterApply(row, r, x);
      WholePieces(ChosenAdd(row, r), x);
    }
  }

  /** Ignoring depends only on which entries there are. */
  lemma SameIgnores(xs: seq<string>, ys: seq<string>, matches: Matcher)
    requires forall x :: x in xs <==> x in ys
    ensures forall u :: Ignored(xs, u, matches) <==> Ignored(ys, u, matches)
  {
    forall u
      ensures Ignored(xs, u, matches) <==> Ignored(ys, u, matches)
    {
      FewerIgnores(xs, ys, u, matches);
      FewerIgnores(ys, xs, u, matches);
    }
  }

  lemma FewerIgnores(xs: seq<string>, ys: seq<string>, u: string, matches: Matcher)
    requires forall x :: x in xs ==> x in ys
    ensures Ignored(xs, u, matches) ==> Ignored(ys, u, matches)
  {
    if Ignored(xs, u, matches) {
      var i :| 0 <= i < |xs| && EntryIgnores(xs[i], u, matches);
      assert xs[i] in ys;
      var j :| 0 <= j < |ys| && ys[j] == xs[i];
      assert EntryIgnores(ys[j], u, matches);
    }
  }

  /** Patterns survive in particular when no detected name looks like a pattern. */
  lemma NoPatternAdded(row: Row, c: Check, matches: Matcher)
    requires c.upstream.Some?
    requires forall x :: x in Pending(row, c, matches).0 ==> !IsPattern(x)
    ensures PatternsSurvive(row, c, matches)
  {
    var entries := Normalize(row.ignored);
    var add := Pending(row, c, matches).0;
    forall u | u in Normalize(c.upstream.value) && u !in Local(row) && u !in c.mapping.Values
               && Ignored(entries, u, matches)
      ensures Ignored(Minus(entries, add), u, matches)
    {
      var i :| 0 <= i < |entries| && EntryIgnores(entries[i], u, matches);
      assert entries[i] !in add;
      var j :| 0 <= j < |Minus(entries, add)| && Minus(entries, add)[j] == entries[i];
      assert EntryIgnores(Minus(entries, add)[j], u, matches);
    }
  }

  /** And a pattern can be lost that way: the upstream serves a model named like the ignore pattern
      itself, which the pattern does not match, besides a model that the pattern keeps out. */
  lemma PatternLost(row: Row, c: Check, matches: Matcher, p: string, m: string)
    requires c.upstream.Some? && IsPattern(p) && p != m
    requires Normalize(row.ignored) == [p] && Local(row) == [] && c.mapping == map[]
    requires p in Normalize(c.upstream.value) && m in Normalize(c.upstream.value)
    requires matches(Text.Trim(p[6..]), m) && !matches(Text.Trim(p[6..]), p)
    ensures !PatternsSurvive(row, c, matches)
  {
    var entries := Normalize(row.ignored);
    assert EntryIgnores(entries[0], m, matches) && !EntryIgnores(p, p, matches);
    assert p in Pending(row, c, matches).0;
  }

  /** A name no entry ignores, and that is not served, is proposed by a check. */
  lemma ProposedAgain(row: Row, matches: Matcher, m: string) returns (c: Check)
    requires IsName(m) && m !in Local(row) && !Ignored(Normalize(row.ignored), m, matches)
    ensures m in Checked(row, c, matches).detected
  {
    c := Check(true, false, 0, 0, Some([m]), map[], true);
    NormalizeFixed([m]);
    assert m in Pending(row, c, matches).0;
  }
}
