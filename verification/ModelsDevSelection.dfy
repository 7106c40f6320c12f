/**
 Choosing one price per model from the models.dev catalogue, where several
 providers list the same model: the cheapest non-zero input price, with prices
 closer than an epsilon treated as equal. That comparison is not transitive; what
 makes the choice well behaved is that providers are visited in sorted order.
 */
module ModelsDevSelection {
  import opened Basics

  const EPSILON := 0.000000001

  /** A price as decoded: absent, or any float64. */
  datatype Cost = Cost(input: Option<Float>, output: Option<Float>, cacheRead: Option<Float>)

  datatype Candidate = Candidate(provider: string, input: real, output: Option<real>, cacheRead: Option<real>)

  type Catalogue = map<string, map<string, Cost>>  // provider -> model -> cost

  // ---------------------------------------------------------------- pure decisions

  predicate NearlyEqual(a: real, b: real) {
    if a > b then a - b < EPSILON else b - a < EPSILON
  }

  predicate ValidCost(v: Float) {
    v.Finite? && v.value >= 0.0
  }

  predicate Usable(cost: Cost) {
    && cost.input.Some? && ValidCost(cost.input.value)
    && (cost.output.Some? ==> ValidCost(cost.output.value))
    && !(cost.input.value.value == 0.0 && cost.output.Some? && cost.output.value.value > 0.0)
  }

  function BuildCandidate(provider: string, cost: Cost): (r: Option<Candidate>)
    ensures r.Some? <==> Usable(cost)
    ensures r.Some? ==> r.value.provider == provider && r.value.input == cost.input.value.value >= 0.0
    ensures r.Some? && r.value.output.Some? && r.value.output.value > 0.0 ==> r.value.input > 0.0
    ensures r.Some? ==> (r.value.output.Some? <==> cost.output.Some?)
    ensures r.Some? && cost.output.Some? ==> r.value.output.value == cost.output.value.value
    ensures r.Some? ==>
              (r.value.cacheRead.Some? <==>
                 cost.cacheRead.Some? && cost.cacheRead.value.Finite? && cost.cacheRead.value.value >= 0.0)
    ensures r.Some? && r.value.cacheRead.Some? ==> r.value.cacheRead.value == cost.cacheRead.value.value
  {
    if cost.input.None? || !ValidCost(cost.input.value) then None
    else if cost.output.Some? && !ValidCost(cost.output.value) then None
    else if cost.input.value.value == 0.0 && cost.output.Some? && cost.output.value.value > 0.0 then None
    else
      Some(Candidate(provider, cost.input.value.value,
                     if cost.output.Some? then Some(cost.output.value.value) else None,
                     if cost.cacheRead.Some? && ValidCost(cost.cacheRead.value) then Some(cost.cacheRead.value.value)
                     else None))
  }

  predicate ShouldReplace(current: Candidate, next: Candidate) {
    var currentNonZero := current.input > 0.0;
    var nextNonZero := next.input > 0.0;
    if currentNonZero != nextNonZero then nextNonZero
    else if nextNonZero && !NearlyEqual(next.input, current.input) then next.input < current.input
    else Less(next.provider, current.provider)
  }

  // ------------------------------------------------------------------ string order

  /** Order by code points, which is the byte order of UTF-8. */
  predicate Less(a: string, b: string) {
    b != "" && (a == "" || a[0] < b[0] || (a[0] == b[0] && Less(a[1..], b[1..])))
  }

  lemma LessIrreflexive(a: string)
    ensures !Less(a, a)
  {
  }

  lemma {:induction false} LessTransitive(a: string, b: string, c: string)
    requires Less(a, b) && Less(b, c)
    ensures Less(a, c)
  {
    if a != "" && a[0] == b[0] == c[0] {
      LessTransitive(a[1..], b[1..], c[1..]);
    }
  }

  lemma {:induction false} LessTotal(a: string, b: string)
    ensures a == b || Less(a, b) || Less(b, a)
  {
    if a != "" && b != "" && a[0] == b[0] {
      LessTotal(a[1..], b[1..]);
      assert a == [a[0]] + a[1..] && b == [b[0]] + b[1..];
    }
  }

  ghost predicate Ascending(xs: seq<string>) {
    forall i, j :: 0 <= i < j < |xs| ==> Less(xs[i], xs[j])
  }

  /** xs lists s in ascending order. */
  ghost predicate Sorts(xs: seq<string>, s: set<string>) {
    Ascending(xs) && forall x :: x in xs <==> x in s
  }

  /** Where x goes in an ascending list: everything before it is smaller, nothing after it is. */
  method Position(xs: seq<string>, x: string) returns (k: nat)
    requires Ascending(xs) && x !in xs
    ensures k <= |xs|
    ensures forall i :: 0 <= i < k ==> Less(xs[i], x)
    ensures forall i :: k <= i < |xs| ==> Less(x, xs[i])
  {
    k := 0;
    while k < |xs| && Less(xs[k], x)
      invariant k <= |xs|
      invariant forall i :: 0 <= i < k ==> Less(xs[i], x)
    {
      k := k + 1;
    }
    if k < |xs| {
      LessTotal(xs[k], x);
      forall i | k < i < |xs|
        ensures Less(x, xs[i])
      {
        LessTransitive(x, xs[k], xs[i]);
      }
    }
  }

  /** The keys of a map, taken in whatever order they come, then sorted. */
  method SortedKeys(s: set<string>) returns (xs: seq<string>)
    ensures Sorts(xs, s)
  {
    xs := [];
    var todo := s;
    while todo != {}
      invariant todo <= s && Sorts(xs, s - todo)
      decreases todo
    {
      var x :| x in todo;
      var k := Position(xs, x);
      ghost var before := xs;
      xs := xs[..k] + [x] + xs[k..];
      todo := todo - {x};
      Inserted(before, k, x);
    }
  }

  lemma Inserted(xs: seq<string>, k: nat, x: string)
    requires Ascending(xs) && k <= |xs|
    requires forall i :: 0 <= i < k ==> Less(xs[i], x)
    requires forall i :: k <= i < |xs| ==> Less(x, xs[i])
    ensures Ascending(xs[..k] + [x] + xs[k..])
    ensures forall y :: y in xs[..k] + [x] + xs[k..] <==> y == x || y in xs
  {
    assert xs == xs[..k] + xs[k..];
  }

  /** There is only one way to list a set in ascending order. */
  lemma {:induction false} SortsUnique(xs: seq<string>, ys: seq<string>, s: set<string>)
    requires Sorts(xs, s) && Sorts(ys, s)
    ensures xs == ys
    decreases |xs|
  {
    if xs == [] {
      NothingSorted(ys, s);
    } else {
      SameHead(xs, ys, s);
      TailSorts(xs, s);
      TailSorts(ys, s);
      SortsUnique(xs[1..], ys[1..], s - {xs[0]});
    }
  }

  lemma NothingSorted(ys: seq<string>, s: set<string>)
    requires Sorts(ys, s)
    ensures ys == [] || ys[0] in s
  {
  }

  lemma SameHead(xs: seq<string>, ys: seq<string>, s: set<string>)
    requires Sorts(xs, s) && Sorts(ys, s) && xs != []
    ensures ys != [] && xs[0] == ys[0]
  {
    assert xs[0] in xs && xs[0] in ys;
    assert ys[0] in ys && ys[0] in xs;
    var i :| 0 <= i < |ys| && ys[i] == xs[0];
    var j :| 0 <= j < |xs| && xs[j] == ys[0];
    if i > 0 && j > 0 {
      LessTransitive(xs[0], ys[0], xs[0]);
      LessIrreflexive(xs[0]);
    }
  }

  lemma TailSorts(xs: seq<string>, s: set<string>)
    requires Sorts(xs, s) && xs != []
    ensures Sorts(xs[1..], s - {xs[0]})
  {
    assert xs == [xs[0]] + xs[1..];
    forall x | x in xs[1..]
      ensures x != xs[0]
    {
      var i :| 1 <= i < |xs| && xs[i] == x;
      LessIrreflexive(x);
    }
  }

  // ------------------------------------------------------------------ the selection

  function Offered(c: Catalogue, provider: string, model: string): Option<Candidate> {
    if provider in c && model in c[provider] then BuildCandidate(provider, c[provider][model]) else None
  }

  /** What a provider offers comes from its own entry for the model, if there is one. */
  lemma OfferedExact(c: Catalogue, provider: string, model: string, candidate: Candidate)
    ensures Offered(c, provider, model) == Some(candidate) <==>
            provider in c && model in c[provider] && BuildCandidate(provider, c[provider][model]) == Some(candidate)
  {
  }

  function Pick(current: Option<Candidate>, next: Option<Candidate>): Option<Candidate> {
    if next.None? then current
    else if current.None? || ShouldReplace(current.value, next.value) then next
    else current
  }

  /** What is selected for a model after visiting the providers in order. */
  function Fold(c: Catalogue, providers: seq<string>, model: string): Option<Candidate> {
    if providers == [] then None
    else
      var n := |providers| - 1;
      Pick(Fold(c, providers[..n], model), Offered(c, providers[n], model))
  }

  function Entry(selected: map<string, Candidate>, m: string): Option<Candidate> {
    if m in selected then Some(selected[m]) else None
  }

  /** The map holds exactly what the fold selects, for every model. */
  ghost predicate Holds(selected: map<string, Candidate>, c: Catalogue, providers: seq<string>) {
    forall m :: Entry(selected, m) == Fold(c, providers, m)
  }

  ghost predicate NothingOffered(c: Catalogue) {
    forall p, m :: Offered(c, p, m).None?
  }

  datatype Selection = EmptyResponse | NoValidEntries | Selected(choice: map<string, Candidate>)

  /** The source's nested loops. The keys of both maps may come in any order: whatever that order
      is, the result is the fold over the one ascending list of providers. */
  method Select(c: Catalogue) returns (r: Selection)
    ensures r.EmptyResponse? <==> c == map[]
    ensures r.NoValidEntries? <==> c != map[] && NothingOffered(c)
    ensures r.Selected? ==> forall providers :: Sorts(providers, c.Keys) ==> Holds(r.choice, c, providers)
  {
    if |c| == 0 {
      return EmptyResponse;
    }
    var providers := SortedKeys(c.Keys);
    var selected: map<string, Candidate> := map[];
    for i := 0 to |providers|
      invariant Holds(selected, c, providers[..i])
    {
      assert providers[i] in providers;
      selected := Visit(c, providers, i, selected);
    }
    assert providers[..|providers|] == providers;
    if |selected| == 0 {
      EmptyMeansNothing(c, providers, selected);
      return NoValidEntries;
    }
    var m :| m in selected;
    assert Entry(selected, m).Some?;
    FoldOffered(c, providers, m);
    assert !NothingOffered(c);
    forall others | Sorts(others, c.Keys)
      ensures Holds(selected, c, others)
    {
      SortsUnique(providers, others, c.Keys);
    }
    r := Selected(selected);
  }

  method Visit(c: Catalogue, providers: seq<string>, i: nat, before: map<string, Candidate>)
    returns (selected: map<string, Candidate>)
    requires i < |providers| && providers[i] in c
    requires Holds(before, c, providers[..i])
    ensures Holds(selected, c, providers[..i + 1])
  {
    var provider := providers[i];
    selected := VisitModels(provider, c[provider], before);
    assert providers[..i + 1][..i] == providers[..i];
    forall m
      ensures Entry(selected, m) == Fold(c, providers[..i + 1], m)
    {
      assert Entry(before, m) == Fold(c, providers[..i], m);
    }
  }

  /** One provider: every model it lists is offered once to the current selection. */
  method VisitModels(provider: string, models: map<string, Cost>, before: map<string, Candidate>)
    returns (selected: map<string, Candidate>)
    ensures forall m :: Entry(selected, m) ==
              if m in models then Pick(Entry(before, m), BuildCandidate(provider, models[m])) else Entry(before, m)
  {
    selected := before;
    if |models| == 0 {
      return;
    }
    var names := SortedKeys(models.Keys);
    for k := 0 to |names|
      invariant forall m :: m !in names[..k] ==> Entry(selected, m) == Entry(before, m)
      invariant forall m :: m in names[..k] && m in models ==>
                  Entry(selected, m) == Pick(Entry(before, m), BuildCandidate(provider, models[m]))
    {
      AscendingFresh(names, k);
      var name := names[k];
      assert name in names;
      ghost var was := selected;
      var candidate := BuildCandidate(provider, models[name]);
      if candidate.Some? {
        if name !in selected || ShouldReplace(selected[name], candidate.value) {
          selected := selected[name := candidate.value];
        }
      }
      assert Entry(selected, name) == Pick(Entry(was, name), candidate);
      assert forall m :: m != name ==> Entry(selected, m) == Entry(was, m);
      assert names[..k + 1] == names[..k] + [name];
    }
    assert names[..|names|] == names;
  }

  lemma AscendingFresh(xs: seq<string>, k: nat)
    requires Ascending(xs) && k < |xs|
    ensures xs[k] !in xs[..k]
  {
    LessIrreflexive(xs[k]);
  }

  lemma EmptyMeansNothing(c: Catalogue, providers: seq<string>, selected: map<string, Candidate>)
    requires Sorts(providers, c.Keys) && Holds(selected, c, providers) && |selected| == 0
    ensures NothingOffered(c)
  {
    forall p, m
      ensures Offered(c, p, m).None?
    {
      assert Entry(selected, m).None?;
      FoldNone(c, providers, m);
      if p in c {
        assert p in providers;
      }
    }
  }

  lemma {:induction false} FoldNone(c: Catalogue, providers: seq<string>, m: string)
    ensures Fold(c, providers, m).None? <==> forall i :: 0 <= i < |providers| ==> Offered(c, providers[i], m).None?
  {
    if providers != [] {
      FoldNone(c, providers[..|providers| - 1], m);
    }
  }

  // ------------------------------------------------------------ what is selected

  /** The selected candidate is one of those offered. */
  lemma {:induction false} FoldOffered(c: Catalogue, providers: seq<string>, m: string)
    ensures Fold(c, providers, m).Some? ==>
              Fold(c, providers, m).value.provider in providers
              && Fold(c, providers, m) == Offered(c, Fold(c, providers, m).value.provider, m)
  {
    if providers != [] {
      FoldOffered(c, providers[..|providers| - 1], m);
    }
  }

  /** chosen is right for the candidate x: non-zero if x is, and then less than epsilon above it. */
  predicate Covers(chosen: Option<Candidate>, x: Option<Candidate>) {
    x.Some? ==> chosen.Some? && (x.value.input > 0.0 ==> 0.0 < chosen.value.input < x.value.input + EPSILON)
  }

  lemma PickCovers(current: Option<Candidate>, next: Option<Candidate>, x: Option<Candidate>)
    requires Covers(current, x)
    requires current.Some? && next.Some? ==> !Less(next.value.provider, current.value.provider)
    ensures Covers(Pick(current, next), x) && Covers(Pick(current, next), next)
  {
  }

  /** Although the comparison is not transitive, after visiting providers in ascending order the
      selected price is less than epsilon above every non-zero price offered, hence above the cheapest
      one; and it is zero only if all are zero. */
  lemma {:induction false} FoldCovers(c: Catalogue, providers: seq<string>, m: string, k: nat)
    requires Ascending(providers) && k < |providers|
    ensures Covers(Fold(c, providers, m), Offered(c, providers[k], m))
    decreases |providers|
  {
    var n := |providers| - 1;
    var before := providers[..n];
    var current, next := Fold(c, before, m), Offered(c, providers[n], m);
    FoldOffered(c, before, m);
    if current.Some? {
      var i :| 0 <= i < n && before[i] == current.value.provider;
      assert providers[i] == before[i];
      NotBoth(providers[i], providers[n]);
    }
    if k < n {
      FoldCovers(c, before, m, k);
      PickCovers(current, next, Offered(c, providers[k], m));
    } else {
      PickCovers(current, next, None);
    }
  }

  lemma NotBoth(a: string, b: string)
    requires Less(a, b)
    ensures !Less(b, a)
  {
    if Less(b, a) {
      LessTransitive(a, b, a);
      LessIrreflexive(a);
    }
  }

  /** The result for the whole catalogue, in terms of what its providers offer. */
  lemma SelectedPrice(c: Catalogue, providers: seq<string>, m: string, p: string)
    requires Sorts(providers, c.Keys) && Offered(c, p, m).Some?
    ensures
      var chosen, offer := Fold(c, providers, m), Offered(c, p, m).value;
      && chosen.Some? && chosen.value.provider in c && chosen == Offered(c, chosen.value.provider, m)
      && (offer.input > 0.0 ==> 0.0 < chosen.value.input < offer.input + 0.000000001)
  {
    assert p in providers;
    var k :| 0 <= k < |providers| && providers[k] == p;
    FoldCovers(c, providers, m, k);
    FoldOffered(c, providers, m);
  }

  /** Prices nearly equal to the first non-zero one do not displace it. */
  lemma {:induction false} FirstStays(c: Catalogue, providers: seq<string>, m: string, first: Candidate)
    requires Ascending(providers) && providers != [] && Offered(c, providers[0], m) == Some(first) && first.input > 0.0
    requires forall k :: 0 <= k < |providers| && Offered(c, providers[k], m).Some? ==>
               var x := Offered(c, providers[k], m).value.input;
               x == 0.0 || -0.000000001 < x - first.input < 0.000000001
    ensures Fold(c, providers, m) == Some(first)
    decreases |providers|
  {
    var n := |providers| - 1;
    if n == 0 {
      assert providers[..0] == [];
    } else {
      assert forall k :: 0 <= k < n ==> providers[..n][k] == providers[k];
      FirstStays(c, providers[..n], m, first);
      NotBoth(providers[0], providers[n]);
      assert Offered(c, providers[n], m).Some? ==> Offered(c, providers[n], m).value.provider == providers[n];
    }
  }

  /** The comparison alone does not give this: visited in descending order, prices that are each
      nearly equal to the one before drift upwards, here to 1.8 epsilon above the cheapest. */
  lemma UnsortedDrifts(c: Catalogue, m: string, low: real)
    requires low > 0.0 && {"a", "b", "c"} <= c.Keys
    requires forall p :: p in {"a", "b", "c"} ==> m in c[p]
    requires c["c"][m] == Cost(Some(Finite(low)), None, None)
    requires c["b"][m] == Cost(Some(Finite(low + 0.9 * EPSILON)), None, None)
    requires c["a"][m] == Cost(Some(Finite(low + 1.8 * EPSILON)), None, None)
    ensures Fold(c, ["c", "b", "a"], m).Some?
    ensures Fold(c, ["c", "b", "a"], m).value.input == low + 1.8 * EPSILON
    ensures Fold(c, ["a", "b", "c"], m).value.input == low
  {
    assert Less("a", "b") && Less("b", "c");
    NotBoth("a", "b");
    NotBoth("b", "c");
    var down, up := ["c", "b", "a"], ["a", "b", "c"];
    assert down[..2] == ["c", "b"] && down[..2][..1] == ["c"] && down[..2][..1][..0] == [];
    assert up[..2] == ["a", "b"] && up[..2][..1] == ["a"] && up[..2][..1][..0] == [];
    assert Fold(c, ["c"], m) == Offered(c, "c", m);
    assert Fold(c, ["c", "b"], m) == Offered(c, "b", m);
    assert Fold(c, ["a"], m) == Offered(c, "a", m);
    assert Fold(c, ["a", "b"], m) == Offered(c, "a", m);
  }
}
