/** Ordered sets of model names, kept as lists: trimmed, without blanks or duplicates. */
module ModelNames {
  import Text

  /** Not blank, and nothing to trim. */
  predicate IsName(x: string) {
    x != "" && !Text.IsSpace(x[0]) && !Text.IsSpace(x[|x| - 1])
  }

  ghost predicate Unique(xs: seq<string>) {
    forall i, j :: 0 <= i < j < |xs| ==> xs[i] != xs[j]
  }

  /** Trimmed, not blank, no duplicates. */
  ghost predicate Normal(xs: seq<string>) {
    Unique(xs) && forall x :: x in xs ==> IsName(x)
  }

  lemma NamesAreTrimmed(x: string)
    ensures IsName(x) <==> x != "" && Text.Trim(x) == x
  {
  }

  // ------------------------------------------------------------------ the algebra

  function Trimmed(models: seq<string>): seq<string> {
    if models == [] then []
    else
      var t := Text.Trim(models[|models| - 1]);
      var r := Trimmed(models[..|models| - 1]);
      if t == "" then r else r + [t]
  }

  /** First occurrences, in order. */
  function Uniq(xs: seq<string>): (r: seq<string>)
    ensures forall x :: x in r <==> x in xs
    ensures Unique(r)
  {
    if xs == [] then []
    else
      var r := Uniq(xs[..|xs| - 1]);
      if xs[|xs| - 1] in r then r else r + [xs[|xs| - 1]]
  }

  function Normalize(models: seq<string>): seq<string> {
    Uniq(Trimmed(models))
  }

  function Minus(xs: seq<string>, ys: seq<string>): (r: seq<string>)
    ensures forall x :: x in r <==> x in xs && x !in ys
    ensures |r| <= |xs|
  {
    if xs == [] then []
    else
      var r := Minus(xs[..|xs| - 1], ys);
      if xs[|xs| - 1] in ys then r else r + [xs[|xs| - 1]]
  }

  function Common(xs: seq<string>, ys: seq<string>): (r: seq<string>)
    ensures forall x :: x in r <==> x in xs && x in ys
    ensures |r| <= |xs|
  {
    if xs == [] then []
    else
      var r := Common(xs[..|xs| - 1], ys);
      if xs[|xs| - 1] in ys then r + [xs[|xs| - 1]] else r
  }

  function Merged(base: seq<string>, appended: seq<string>): seq<string> {
    Normalize(base) + Minus(Normalize(appended), Normalize(base))
  }

  function Subtracted(base: seq<string>, removed: seq<string>): seq<string> {
    Minus(Normalize(base), Normalize(removed))
  }

  function Intersected(base: seq<string>, allowed: seq<string>): seq<string> {
    Common(Normalize(base), Normalize(allowed))
  }

  /** Adds, then removes; a name chosen for both is added. */
  function Applied(origin: seq<string>, add: seq<string>, remove: seq<string>): seq<string> {
    var normalizedAdd := Normalize(add);
    Subtracted(Merged(origin, normalizedAdd), Subtracted(Normalize(remove), normalizedAdd))
  }

  // ------------------------------------------------------------- the source's loops

  method MergeModelNames(base: seq<string>, appended: seq<string>) returns (merged: seq<string>)
    ensures merged == Merged(base, appended)
  {
    var first, more := Normalize(base), Normalize(appended);
    merged := AppendUnseen(first, more);
  }

  method AppendUnseen(first: seq<string>, more: seq<string>) returns (merged: seq<string>)
    requires Unique(more)
    ensures merged == first + Minus(more, first)
  {
    merged := first;
    var seen := set m | m in first;
    for i := 0 to |more|
      invariant merged == first + Minus(more[..i], first)
      invariant seen == Seen(first, more, i)
    {
      AppendStep(first, more, i);
      SeenExact(first, more, i, more[i]);
      if more[i] !in seen {
        merged := merged + [more[i]];
      }
      seen := seen + {more[i]};
    }
    assert more[..|more|] == more;
  }

  lemma Associates(xs: seq<string>, ys: seq<string>, zs: seq<string>)
    ensures (xs + ys) + zs == xs + (ys + zs)
  {
  }

  lemma AppendStep(first: seq<string>, more: seq<string>, i: nat)
    requires Unique(more) && i < |more|
    ensures var before := first + Minus(more[..i], first);
            first + Minus(more[..i + 1], first) == if more[i] in first then before else before + [more[i]]
  {
    MinusSnoc(more, i, first);
    Associates(first, Minus(more[..i], first), [more[i]]);
  }

  /** The names met in `first` and the first i of `more`. */
  function Seen(first: seq<string>, more: seq<string>, i: nat): set<string>
    requires i <= |more|
  {
    if i == 0 then set m | m in first else Seen(first, more, i - 1) + {more[i - 1]}
  }

  /** A list without repetitions meets x early only if x is in the first list. */
  lemma {:induction false} SeenExact(first: seq<string>, more: seq<string>, i: nat, x: string)
    requires i <= |more| && forall j :: 0 <= j < i ==> more[j] != x
    ensures x in Seen(first, more, i) <==> x in first
  {
    if i > 0 {
      SeenExact(first, more, i - 1, x);
    }
  }

  lemma NoRepeat(xs: seq<string>, i: nat)
    requires Unique(xs) && i < |xs|
    ensures xs[i] !in xs[..i]
    ensures forall x :: x in xs[..i + 1] <==> x in xs[..i] || x == xs[i]
  {
    assert xs[..i + 1] == xs[..i] + [xs[i]];
  }

  lemma MinusSnoc(xs: seq<string>, i: nat, ys: seq<string>)
    requires i < |xs|
    ensures Minus(xs[..i + 1], ys) == if xs[i] in ys then Minus(xs[..i], ys) else Minus(xs[..i], ys) + [xs[i]]
  {
    assert xs[..i + 1][..i] == xs[..i];
  }

  lemma CommonSnoc(xs: seq<string>, i: nat, ys: seq<string>)
    requires i < |xs|
    ensures Common(xs[..i + 1], ys) == if xs[i] in ys then Common(xs[..i], ys) + [xs[i]] else Common(xs[..i], ys)
  {
    assert xs[..i + 1][..i] == xs[..i];
  }

  method SubtractModelNames(base: seq<string>, removed: seq<string>) returns (r: seq<string>)
    ensures r == Subtracted(base, removed)
  {
    var names, gone := Normalize(base), Normalize(removed);
    r := KeepOutside(names, gone);
  }

  method KeepOutside(names: seq<string>, gone: seq<string>) returns (r: seq<string>)
    ensures r == Minus(names, gone)
  {
    var removeSet := set m | m in gone;
    r := [];
    for i := 0 to |names|
      invariant r == Minus(names[..i], gone)
    {
      MinusSnoc(names, i, gone);
      if names[i] !in removeSet {
        r := r + [names[i]];
      }
    }
    assert names[..|names|] == names;
  }

  method IntersectModelNames(base: seq<string>, allowed: seq<string>) returns (r: seq<string>)
    ensures r == Intersected(base, allowed)
  {
    var names, kept := Normalize(base), Normalize(allowed);
    r := KeepInside(names, kept);
  }

  method KeepInside(names: seq<string>, kept: seq<string>) returns (r: seq<string>)
    ensures r == Common(names, kept)
  {
    var allowedSet := set m | m in kept;
    r := [];
    for i := 0 to |names|
      invariant r == Common(names[..i], kept)
    {
      CommonSnoc(names, i, kept);
      if names[i] in allowedSet {
        r := r + [names[i]];
      }
    }
    assert names[..|names|] == names;
  }

  // ------------------------------------------------------------------------- laws

  /** Every name in the list comes from an entry, trimmed. */
  lemma {:induction false} TrimmedFrom(models: seq<string>, x: string) returns (i: nat)
    requires x in Trimmed(models)
    ensures i < |models| && Text.Trim(models[i]) == x != ""
  {
    var n := |models| - 1;
    if Text.Trim(models[n]) == x && x != "" {
      i := n;
    } else {
      i := TrimmedFrom(models[..n], x);
    }
  }

  /** Every entry that is not blank is in the list. */
  lemma {:induction false} TrimmedHas(models: seq<string>, i: nat)
    requires i < |models| && Text.Trim(models[i]) != ""
    ensures Text.Trim(models[i]) in Trimmed(models)
    decreases |models|
  {
    if i < |models| - 1 {
      TrimmedHas(models[..|models| - 1], i);
    }
  }

  lemma NormalizeNormal(models: seq<string>)
    ensures Normal(Normalize(models))
  {
    forall x | x in Normalize(models)
      ensures IsName(x)
    {
      var i := TrimmedFrom(models, x);
    }
  }

  lemma {:induction false} TrimmedFixed(xs: seq<string>)
    requires forall x :: x in xs ==> IsName(x)
    ensures Trimmed(xs) == xs
  {
    if xs != [] {
      var n := |xs| - 1;
      var rest, last := xs[..n], xs[n];
      assert forall x :: x in rest ==> x in xs;
      TrimmedFixed(rest);
      assert last in xs;
      NamesAreTrimmed(last);
      assert Trimmed(xs) == rest + [last];
    }
  }

  lemma {:induction false} UniqFixed(xs: seq<string>)
    requires Unique(xs)
    ensures Uniq(xs) == xs
  {
    if xs != [] {
      var n := |xs| - 1;
      UniqFixed(xs[..n]);
      NoRepeat(xs, n);
      assert xs == xs[..n] + [xs[n]];
    }
  }

  lemma NormalizeFixed(xs: seq<string>)
    requires Normal(xs)
    ensures Normalize(xs) == xs
  {
    TrimmedFixed(xs);
    UniqFixed(xs);
  }

  /** A choice from all but the last name, possibly with the last name, is normal again. */
  lemma SnocNormal(xs: seq<string>, r: seq<string>)
    requires Normal(xs) && xs != [] && Normal(r)
    requires forall x :: x in r ==> x in xs[..|xs| - 1]
    ensures Normal(r + [xs[|xs| - 1]])
  {
    NoRepeat(xs, |xs| - 1);
    assert forall i :: 0 <= i < |r| ==> r[i] in r;
  }

  lemma ButLastNormal(xs: seq<string>)
    requires Normal(xs) && xs != []
    ensures Normal(xs[..|xs| - 1])
  {
    assert forall x :: x in xs[..|xs| - 1] ==> x in xs;
  }

  lemma {:induction false} MinusNormal(xs: seq<string>, ys: seq<string>)
    requires Normal(xs)
    ensures Normal(Minus(xs, ys))
  {
    if xs != [] {
      var n := |xs| - 1;
      ButLastNormal(xs);
      MinusNormal(xs[..n], ys);
      SnocNormal(xs, Minus(xs[..n], ys));
      assert Minus(xs, ys) == Minus(xs[..n], ys) || Minus(xs, ys) == Minus(xs[..n], ys) + [xs[n]];
    }
  }

  lemma {:induction false} CommonNormal(xs: seq<string>, ys: seq<string>)
    requires Normal(xs)
    ensures Normal(Common(xs, ys))
  {
    if xs != [] {
      var n := |xs| - 1;
      ButLastNormal(xs);
      CommonNormal(xs[..n], ys);
      SnocNormal(xs, Common(xs[..n], ys));
      assert Common(xs, ys) == Common(xs[..n], ys) || Common(xs, ys) == Common(xs[..n], ys) + [xs[n]];
    }
  }

  lemma ConcatNormal(xs: seq<string>, ys: seq<string>)
    requires Normal(xs) && Normal(ys)
    requires forall x :: x in xs ==> x !in ys
    ensures Normal(xs + ys)
  {
    var zs := xs + ys;
    forall i, j | 0 <= i < j < |zs|
      ensures zs[i] != zs[j]
    {
      assert i < |xs| ==> zs[i] in xs;
      assert |xs| <= j ==> zs[j] in ys;
    }
  }

  lemma MergedNormal(base: seq<string>, appended: seq<string>)
    ensures Normal(Merged(base, appended))
    ensures forall x :: x in Merged(base, appended) <==> x in Normalize(base) || x in Normalize(appended)
  {
    NormalizeNormal(base);
    NormalizeNormal(appended);
    MinusNormal(Normalize(appended), Normalize(base));
    ConcatNormal(Normalize(base), Minus(Normalize(appended), Normalize(base)));
  }

  lemma SubtractedNormal(base: seq<string>, removed: seq<string>)
    ensures Normal(Subtracted(base, removed))
    ensures forall x :: x in Subtracted(base, removed) <==> x in Normalize(base) && x !in Normalize(removed)
  {
    NormalizeNormal(base);
    MinusNormal(Normalize(base), Normalize(removed));
  }

  lemma IntersectedNormal(base: seq<string>, allowed: seq<string>)
    ensures Normal(Intersected(base, allowed))
    ensures forall x :: x in Intersected(base, allowed) <==> x in Normalize(base) && x in Normalize(allowed)
  {
    NormalizeNormal(base);
    CommonNormal(Normalize(base), Normalize(allowed));
  }

  /** Applying chosen changes yields a normal list with the added names, and the old ones that
      were not removed; adding wins over removing. */
  lemma AppliedNames(origin: seq<string>, add: seq<string>, remove: seq<string>)
    ensures Normal(Applied(origin, add, remove))
    ensures forall x :: x in Applied(origin, add, remove) <==>
                        x in Normalize(add) || (x in Normalize(origin) && x !in Normalize(remove))
  {
    var a := Normalize(add);
    var r := Normalize(remove);
    NormalizeNormal(add);
    NormalizeNormal(remove);
    NormalizeFixed(a);
    NormalizeFixed(r);
    MergedNormal(origin, a);
    NormalizeFixed(Merged(origin, a));
    SubtractedNormal(r, a);
    NormalizeFixed(Subtracted(r, a));
    SubtractedNormal(Merged(origin, a), Subtracted(r, a));
  }

  // ------------------------------------------------------------------------- order

  /** Names come out in the order in which they first appear: what the first i names give is the beginning
      of what all of them give. */
  lemma {:induction false} NormalizeInOrder(models: seq<string>, i: nat)
    requires i <= |models|
    ensures Normalize(models[..i]) <= Normalize(models)
    decreases |models|
  {
    if i == |models| {
      assert models[..i] == models;
    } else {
      var n := |models| - 1;
      NormalizeInOrder(models[..n], i);
      assert models[..n][..i] == models[..i];
      NormalizeSnoc(models);
    }
  }

  lemma NormalizeSnoc(models: seq<string>)
    requires models != []
    ensures
      var before, t := Normalize(models[..|models| - 1]), Text.Trim(models[|models| - 1]);
      Normalize(models) == if t == "" || t in before then before else before + [t]
  {
    var r, t := Trimmed(models[..|models| - 1]), Text.Trim(models[|models| - 1]);
    if t != "" {
      assert (r + [t])[..|r|] == r;
    }
  }

  lemma {:induction false} MinusInOrder(xs: seq<string>, ys: seq<string>, i: nat)
    requires i <= |xs|
    ensures Minus(xs[..i], ys) <= Minus(xs, ys)
    decreases |xs|
  {
    if i == |xs| {
      assert xs[..i] == xs;
    } else {
      MinusInOrder(xs[..|xs| - 1], ys, i);
      assert xs[..|xs| - 1][..i] == xs[..i];
    }
  }

  lemma {:induction false} CommonInOrder(xs: seq<string>, ys: seq<string>, i: nat)
    requires i <= |xs|
    ensures Common(xs[..i], ys) <= Common(xs, ys)
    decreases |xs|
  {
    if i == |xs| {
      assert xs[..i] == xs;
    } else {
      CommonInOrder(xs[..|xs| - 1], ys, i);
      assert xs[..|xs| - 1][..i] == xs[..i];
    }
  }

  /** Merging begins with the base, and what it appends, subtracts or keeps stays in order. */
  lemma AllInOrder(base: seq<string>, other: seq<string>, i: nat)
    requires i <= |Normalize(base)| && i <= |Normalize(other)|
    ensures Normalize(base) <= Merged(base, other)
    ensures Normalize(base) + Minus(Normalize(other)[..i], Normalize(base)) <= Merged(base, other)
    ensures Minus(Normalize(base)[..i], Normalize(other)) <= Subtracted(base, other)
    ensures Common(Normalize(base)[..i], Normalize(other)) <= Intersected(base, other)
  {
    MinusInOrder(Normalize(other), Normalize(base), i);
    MinusInOrder(Normalize(base), Normalize(other), i);
    CommonInOrder(Normalize(base), Normalize(other), i);
  }
}
