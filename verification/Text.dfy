/** The little text processing the modelled code relies on: trimming, and lists kept as one
    delimited string. */
module Text {
  import opened Basics

  /** Unicode White_Space, the characters that are trimmed. */
  predicate IsSpace(c: char) {
    var n := c as int;
    9 <= n <= 13 || n == 32 || n == 0x85 || n == 0xA0 || n == 0x1680 || 0x2000 <= n <= 0x200A
    || n == 0x2028 || n == 0x2029 || n == 0x202F || n == 0x205F || n == 0x3000
  }

  lemma SpaceExact(c: char)
    ensures IsSpace(c) <==>
            c as int in {0x09, 0x0A, 0x0B, 0x0C, 0x0D, 0x20, 0x85, 0xA0, 0x1680, 0x2000, 0x2001, 0x2002, 0x2003, 0x2004,
                         0x2005, 0x2006, 0x2007, 0x2008, 0x2009, 0x200A, 0x2028, 0x2029, 0x202F, 0x205F, 0x3000}
  {
  }

  /** s without leading and trailing white space. */
  function Trim(s: string): (r: string)
    ensures |r| <= |s|
    ensures r != "" ==> !IsSpace(r[0]) && !IsSpace(r[|r| - 1])
    ensures s != "" && !IsSpace(s[0]) && !IsSpace(s[|s| - 1]) ==> r == s
  {
    if s == "" then ""
    else if IsSpace(s[0]) then Trim(s[1..])
    else if IsSpace(s[|s| - 1]) then Trim(s[..|s| - 1])
    else s
  }

  /** Outside [a, b) there is only white space. */
  ghost predicate BlankAround(s: string, a: nat, b: nat) {
    a <= b <= |s| && forall i :: 0 <= i < |s| && !(a <= i < b) ==> IsSpace(s[i])
  }

  lemma BlankBefore(s: string, a: nat, b: nat)
    requires s != "" && IsSpace(s[0]) && BlankAround(s[1..], a, b)
    ensures BlankAround(s, a + 1, b + 1) && s[1..][a..b] == s[a + 1..b + 1]
  {
    forall i | 0 <= i < |s| && !(a + 1 <= i < b + 1)
      ensures IsSpace(s[i])
    {
      assert i > 0 ==> s[i] == s[1..][i - 1];
    }
  }

  lemma BlankAfter(s: string, a: nat, b: nat)
    requires s != "" && IsSpace(s[|s| - 1]) && BlankAround(s[..|s| - 1], a, b)
    ensures BlankAround(s, a, b) && s[..|s| - 1][a..b] == s[a..b]
  {
    forall i | 0 <= i < |s| && !(a <= i < b)
      ensures IsSpace(s[i])
    {
      assert i < |s| - 1 ==> s[i] == s[..|s| - 1][i];
    }
  }

  /** Trimming cuts off white space at both ends and nothing else. */
  lemma {:induction false} TrimExact(s: string) returns (a: nat, b: nat)
    ensures BlankAround(s, a, b) && Trim(s) == s[a..b]
    decreases |s|
  {
    if s == "" {
      a, b := 0, 0;
    } else if IsSpace(s[0]) {
      a, b := TrimExact(s[1..]);
      BlankBefore(s, a, b);
      a, b := a + 1, b + 1;
    } else if IsSpace(s[|s| - 1]) {
      a, b := TrimExact(s[..|s| - 1]);
      BlankAfter(s, a, b);
    } else {
      a, b := 0, |s|;
    }
  }

  /** The first character that is not white space. */
  function Leading(s: string): Option<char> {
    if s == "" then None else if IsSpace(s[0]) then Leading(s[1..]) else Some(s[0])
  }

  lemma {:induction false} LeadingAppend(s: string, t: string)
    ensures Leading(s + t) == if Leading(s).Some? then Leading(s) else Leading(t)
  {
    if s == "" {
      assert s + t == t;
    } else {
      LeadingAppend(s[1..], t);
      assert (s + t)[1..] == s[1..] + t;
    }
  }

  /** It is what a trimmed text starts with. */
  lemma {:induction false} TrimLeading(s: string)
    ensures Leading(s) == if Trim(s) == "" then None else Some(Trim(s)[0])
    decreases |s|
  {
    if s == "" {
    } else if IsSpace(s[0]) {
      TrimLeading(s[1..]);
    } else if IsSpace(s[|s| - 1]) {
      TrimLeading(s[..|s| - 1]);
    }
  }

  lemma {:induction false} TrimChars(s: string, c: char)
    requires c !in s
    ensures c !in Trim(s)
    decreases |s|
  {
    if s == "" {
    } else if IsSpace(s[0]) {
      TrimChars(s[1..], c);
    } else if IsSpace(s[|s| - 1]) {
      TrimChars(s[..|s| - 1], c);
    }
  }

  // ------------------------------------------------------------- delimited lists

  function Join(xs: seq<string>, sep: char): string {
    if xs == [] then ""
    else if |xs| == 1 then xs[0]
    else xs[0] + [sep] + Join(xs[1..], sep)
  }

  /** The pieces of s between separators; the empty text has one empty piece. */
  function Split(s: string, sep: char): (r: seq<string>)
    ensures |r| >= 1
  {
    if s == "" then [""] else Prepend(s[0], sep, Split(s[1..], sep))
  }

  /** The pieces when one character is put in front. */
  function Prepend(c: char, sep: char, pieces: seq<string>): (r: seq<string>)
    requires pieces != []
    ensures |r| >= 1
  {
    if c == sep then [""] + pieces else [[c] + pieces[0]] + pieces[1..]
  }

  /** s without leading and trailing separators. */
  function Strip(s: string, sep: char): string {
    if s == "" then ""
    else if s[0] == sep then Strip(s[1..], sep)
    else if s[|s| - 1] == sep then Strip(s[..|s| - 1], sep)
    else s
  }

  /** How a stored list is read back. */
  function Parse(s: string, sep: char): seq<string> {
    if s == "" then [] else Split(Strip(s, sep), sep)
  }

  ghost predicate Clean(xs: seq<string>, sep: char) {
    forall i :: 0 <= i < |xs| ==> sep !in xs[i]
  }

  lemma {:induction false} SplitClean(s: string, sep: char)
    ensures Clean(Split(s, sep), sep)
  {
    if s != "" {
      SplitClean(s[1..], sep);
    }
  }

  lemma PrependAppend(c: char, sep: char, xs: seq<string>, ys: seq<string>)
    requires xs != []
    ensures Prepend(c, sep, xs + ys) == Prepend(c, sep, xs) + ys
  {
    assert (xs + ys)[1..] == xs[1..] + ys;
  }

  lemma {:induction false} SplitAppend(s: string, t: string, sep: char)
    ensures Split(s + [sep] + t, sep) == Split(s, sep) + Split(t, sep)
  {
    var all := s + [sep] + t;
    if s == "" {
      assert all[1..] == t;
    } else {
      SplitAppend(s[1..], t, sep);
      assert all[1..] == s[1..] + [sep] + t;
      PrependAppend(s[0], sep, Split(s[1..], sep), Split(t, sep));
    }
  }

  lemma {:induction false} SplitAtom(x: string, sep: char)
    requires sep !in x
    ensures Split(x, sep) == [x]
  {
    if x != "" {
      SplitAtom(x[1..], sep);
      assert x == [x[0]] + x[1..];
    }
  }

  lemma {:induction false} SplitJoin(xs: seq<string>, sep: char)
    requires xs != [] && Clean(xs, sep)
    ensures Split(Join(xs, sep), sep) == xs
  {
    if |xs| == 1 {
      SplitAtom(xs[0], sep);
    } else {
      SplitJoin(xs[1..], sep);
      SplitAtom(xs[0], sep);
      SplitAppend(xs[0], Join(xs[1..], sep), sep);
    }
  }

  lemma JoinPrepend(c: char, sep: char, pieces: seq<string>)
    requires pieces != []
    ensures Join(Prepend(c, sep, pieces), sep) == [c] + Join(pieces, sep)
  {
    var r := Prepend(c, sep, pieces);
    if c == sep {
      assert r[1..] == pieces;
    } else if |pieces| > 1 {
      assert r[1..] == pieces[1..];
      assert r[0] + [sep] + Join(r[1..], sep) == [c] + (pieces[0] + [sep] + Join(pieces[1..], sep));
    }
  }

  /** Splitting loses nothing: joining the pieces gives the text back. */
  lemma {:induction false} JoinSplit(s: string, sep: char)
    ensures Join(Split(s, sep), sep) == s
  {
    if s != "" {
      JoinSplit(s[1..], sep);
      JoinPrepend(s[0], sep, Split(s[1..], sep));
      assert s == [s[0]] + s[1..];
    }
  }

  lemma {:induction false} StripShorter(s: string, sep: char)
    ensures |Strip(s, sep)| <= |s|
    decreases |s|
  {
    if s == "" {
    } else if s[0] == sep {
      StripShorter(s[1..], sep);
    } else if s[|s| - 1] == sep {
      StripShorter(s[..|s| - 1], sep);
    }
  }

  /** The length of the items, each with one separator. */
  function Length(xs: seq<string>): nat {
    if xs == [] then 0 else Length(xs[..|xs| - 1]) + |xs[|xs| - 1]| + 1
  }

  lemma {:induction false} LengthFront(x: string, xs: seq<string>)
    ensures Length([x] + xs) == |x| + 1 + Length(xs)
    decreases |xs|
  {
    var all := [x] + xs;
    if xs == [] {
      assert all[..0] == [];
    } else {
      LengthFront(x, xs[..|xs| - 1]);
      assert all[..|all| - 1] == [x] + xs[..|xs| - 1];
    }
  }

  lemma {:induction false} JoinLength(xs: seq<string>, sep: char)
    requires xs != []
    ensures |Join(xs, sep)| == Length(xs) - 1
  {
    LengthFront(xs[0], xs[1..]);
    assert xs == [xs[0]] + xs[1..];
    if |xs| > 1 {
      JoinLength(xs[1..], sep);
    }
  }

  lemma {:induction false} JoinEnds(xs: seq<string>, sep: char)
    requires xs != [] && xs[0] != "" && xs[|xs| - 1] != ""
    ensures
      var s := Join(xs, sep);
      var last := xs[|xs| - 1];
      s != "" && s[0] == xs[0][0] && s[|s| - 1] == last[|last| - 1]
  {
    if |xs| > 1 {
      JoinLast(xs, sep);
    }
  }

  lemma {:induction false} JoinLast(xs: seq<string>, sep: char)
    requires xs != [] && xs[|xs| - 1] != ""
    ensures
      var s := Join(xs, sep);
      var last := xs[|xs| - 1];
      s != "" && s[|s| - 1] == last[|last| - 1]
  {
    if |xs| > 1 {
      JoinLast(xs[1..], sep);
    }
  }

  lemma {:induction false} ParsedEnds(s: string, sep: char)
    ensures Strip(s, sep) != "" ==>
              Parse(s, sep) != [] && Parse(s, sep)[0] != "" && Parse(s, sep)[|Parse(s, sep)| - 1] != ""
    ensures s != "" && Strip(s, sep) == "" ==> Parse(s, sep) == [""]
  {
    if Strip(s, sep) != "" {
      StripEnds(s, sep);
      SplitEnds(Strip(s, sep), sep);
    }
  }

  lemma {:induction false} StripEnds(s: string, sep: char)
    ensures var r := Strip(s, sep); r != "" ==> r[0] != sep && r[|r| - 1] != sep
    decreases |s|
  {
    if s == "" {
    } else if s[0] == sep {
      StripEnds(s[1..], sep);
    } else if s[|s| - 1] == sep {
      StripEnds(s[..|s| - 1], sep);
    }
  }

  lemma {:induction false} SplitEnds(s: string, sep: char)
    requires s != "" && s[|s| - 1] != sep
    ensures Split(s, sep)[|Split(s, sep)| - 1] != ""
    ensures s[0] != sep ==> Split(s, sep)[0] != ""
  {
    var pieces := Split(s[1..], sep);
    assert Split(s, sep) == Prepend(s[0], sep, pieces);
    if |s| == 1 {
      assert s[1..] == "";
    } else {
      SplitEnds(s[1..], sep);
    }
    PrependEnds(s[0], sep, pieces);
  }

  lemma PrependEnds(c: char, sep: char, pieces: seq<string>)
    requires pieces != [] && (pieces[|pieces| - 1] != "" || (pieces == [""] && c != sep))
    ensures var r := Prepend(c, sep, pieces); r[|r| - 1] != "" && (c != sep ==> r[0] != "")
  {
  }

  /** The storage round trip: a list written with `Join` is read back unchanged if and only if it is
      empty, or no item contains the separator and neither its first nor its last item is empty. */
  lemma RoundTrip(xs: seq<string>, sep: char)
    ensures Parse(Join(xs, sep), sep) == xs <==>
            xs == [] || (Clean(xs, sep) && xs[0] != "" && xs[|xs| - 1] != "")
  {
    var s := Join(xs, sep);
    if xs == [] {
    } else if Clean(xs, sep) && xs[0] != "" && xs[|xs| - 1] != "" {
      JoinEnds(xs, sep);
      assert Strip(s, sep) == s;
      SplitJoin(xs, sep);
    } else if Parse(s, sep) == xs {
      SplitClean(Strip(s, sep), sep);
      ParsedEnds(s, sep);
    }
  }

  /** A joined text leads with what one of its items leads with; a separator that is white space never
      counts. */
  lemma {:induction false} JoinLeading(xs: seq<string>, sep: char, c: char)
    requires IsSpace(sep) && forall i :: 0 <= i < |xs| ==> Leading(xs[i]) != Some(c)
    ensures Leading(Join(xs, sep)) != Some(c)
  {
    if |xs| > 1 {
      JoinLeading(xs[1..], sep, c);
      LeadingAppend(xs[0] + [sep], Join(xs[1..], sep));
      LeadingAppend(xs[0], [sep]);
      assert [sep][1..] == "";
    }
  }

  // ------------------------------------------------------- which items are read back

  lemma {:induction false} StripPieces(s: string, sep: char, y: string)
    requires y != ""
    ensures y in Split(Strip(s, sep), sep) <==> y in Split(s, sep)
    decreases |s|
  {
    if s == "" {
    } else if s[0] == sep {
      StripPieces(s[1..], sep, y);
    } else if s[|s| - 1] == sep {
      var n := |s| - 1;
      StripPieces(s[..n], sep, y);
      assert s == s[..n] + [sep] + "";
      SplitAppend(s[..n], "", sep);
    }
  }

  lemma {:induction false} SplitPieces(xs: seq<string>, sep: char, y: string)
    requires y != ""
    ensures y in Split(Join(xs, sep), sep) <==> exists i :: 0 <= i < |xs| && y in Split(xs[i], sep)
  {
    if |xs| > 1 {
      var rest := xs[1..];
      SplitPieces(rest, sep, y);
      SplitAppend(xs[0], Join(rest, sep), sep);
      assert forall i :: 0 <= i < |rest| ==> rest[i] == xs[i + 1];
      assert forall i :: 1 <= i < |xs| ==> xs[i] == rest[i - 1];
    }
  }

  /** Written and read back, any list falls apart into what its items fall apart into, one by one. */
  lemma JoinPieces(xs: seq<string>, sep: char, y: string)
    requires y != ""
    ensures y in Parse(Join(xs, sep), sep) <==> exists i :: 0 <= i < |xs| && y in Parse(xs[i], sep)
  {
    SplitPieces(xs, sep, y);
    StripPieces(Join(xs, sep), sep, y);
    forall i | 0 <= i < |xs|
      ensures y in Parse(xs[i], sep) <==> y in Split(xs[i], sep)
    {
      StripPieces(xs[i], sep, y);
    }
  }

  // ------------------------------------------------- how many items are read back

  function Seps(s: string, sep: char): nat {
    if s == "" then 0 else Seps(s[1..], sep) + if s[0] == sep then 1 else 0
  }

  lemma {:induction false} SepsAppend(s: string, t: string, sep: char)
    ensures Seps(s + t, sep) == Seps(s, sep) + Seps(t, sep)
  {
    if s == "" {
      assert s + t == t;
    } else {
      SepsAppend(s[1..], t, sep);
      assert (s + t)[1..] == s[1..] + t;
    }
  }

  lemma {:induction false} SplitCount(s: string, sep: char)
    ensures |Split(s, sep)| == Seps(s, sep) + 1
  {
    if s != "" {
      SplitCount(s[1..], sep);
    }
  }

  lemma {:induction false} NoSeps(s: string, sep: char)
    requires sep !in s
    ensures Seps(s, sep) == 0
  {
    if s != "" {
      NoSeps(s[1..], sep);
    }
  }

  lemma {:induction false} JoinCount(xs: seq<string>, sep: char)
    requires xs != [] && Clean(xs, sep)
    ensures Seps(Join(xs, sep), sep) == |xs| - 1
  {
    NoSeps(xs[0], sep);
    if |xs| > 1 {
      JoinCount(xs[1..], sep);
      SepsAppend(xs[0] + [sep], Join(xs[1..], sep), sep);
      SepsAppend(xs[0], [sep], sep);
    }
  }

  lemma {:induction false} StripCount(s: string, sep: char)
    ensures Seps(Strip(s, sep), sep) <= Seps(s, sep)
    ensures s != "" && (s[0] == sep || s[|s| - 1] == sep) ==> Seps(Strip(s, sep), sep) < Seps(s, sep)
    decreases |s|
  {
    if s == "" {
    } else if s[0] == sep {
      StripCount(s[1..], sep);
    } else if s[|s| - 1] == sep {
      var n := |s| - 1;
      StripCount(s[..n], sep);
      assert s == s[..n] + [sep];
      SepsAppend(s[..n], [sep], sep);
    }
  }

  lemma {:induction false} JoinEmptyLast(xs: seq<string>, sep: char)
    requires |xs| > 1 && xs[|xs| - 1] == ""
    ensures var s := Join(xs, sep); s != "" && s[|s| - 1] == sep
  {
    if |xs| > 2 {
      JoinEmptyLast(xs[1..], sep);
    }
  }

  /** A list of separator-free items with an empty first or last item is read back shorter. */
  lemma ReadBackShorter(xs: seq<string>, sep: char)
    requires |xs| > 1 && Clean(xs, sep) && (xs[0] == "" || xs[|xs| - 1] == "")
    ensures |Parse(Join(xs, sep), sep)| < |xs|
  {
    var s := Join(xs, sep);
    if xs[|xs| - 1] == "" {
      JoinEmptyLast(xs, sep);
    }
    JoinCount(xs, sep);
    StripCount(s, sep);
    SplitCount(Strip(s, sep), sep);
  }
}
