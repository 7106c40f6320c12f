/**
 Reading an Opus stream's length from its Ogg pages (section 6 of RFC 3533): a
 byte scanner that resynchronises on the capture pattern, takes the largest
 granule position and skips over page bodies.
 */
module OggScan {
  import opened Basics

  const HEADER := 27
  const PATTERN: seq<byte> := [0x4F, 0x67, 0x67, 0x53]  // "OggS"

  // ------------------------------------------------------------ reading the header

  function LittleEndian(bs: seq<byte>): (n: nat) {
    if bs == [] then 0 else bs[0] + 256 * LittleEndian(bs[1..])
  }

  /** Two's complement reading of 64 bits. */
  function Signed64(n: int): int {
    if n >= 0x8000_0000_0000_0000 then n - 0x1_0000_0000_0000_0000 else n
  }

  function GranuleAt(data: seq<byte>, pos: nat): int
    requires pos + HEADER <= |data|
  {
    Signed64(LittleEndian(data[pos + 6..pos + 14]))
  }

  function Sum(bs: seq<byte>): (n: nat) {
    if bs == [] then 0 else Sum(bs[..|bs| - 1]) + bs[|bs| - 1]
  }

  function Max(a: int, b: int): int {
    if a < b then b else a
  }

  // ------------------------------------------------------------------ the scan

  /** What is left to find from `pos` on: the page starts read, and the largest granule position
      among them and `best`. A page whose segment table is cut off counts, and ends the scan. */
  function Scanned(data: seq<byte>, pos: nat, best: int): (r: (seq<nat>, int))
    decreases |data| - pos
  {
    if pos + HEADER > |data| then ([], best)
    else if data[pos..pos + 4] != PATTERN then Scanned(data, pos + 1, best)
    else
      var best' := Max(best, GranuleAt(data, pos));
      var table := pos + HEADER;
      var segments := data[pos + 26];
      if table + segments > |data| then ([pos], best')
      else
        var rest := Scanned(data, table + segments + Sum(data[table..table + segments]), best');
        ([pos] + rest.0, rest.1)
  }

  /** A scan's findings when `starts` were found before it. */
  function After(starts: seq<nat>, r: (seq<nat>, int)): (seq<nat>, int) {
    (starts + r.0, r.1)
  }

  lemma AfterOne(starts: seq<nat>, start: nat, r: (seq<nat>, int))
    ensures After(starts, ([start] + r.0, r.1)) == After(starts + [start], r)
  {
    assert starts + ([start] + r.0) == starts + [start] + r.0;
  }

  lemma AfterNone(r: (seq<nat>, int), starts: seq<nat>, best: int)
    ensures After([], r) == r && After(starts, ([], best)) == (starts, best)
  {
    assert [] + r.0 == r.0 && starts + [] == starts;
  }

  lemma AfterMore(start: nat, starts: seq<nat>, r: (seq<nat>, int))
    ensures ([start] + After(starts, r).0, After(starts, r).1) == After([start] + starts, r)
  {
    assert [start] + (starts + r.0) == [start] + starts + r.0;
  }

  /** The source's loop over a seekable reader. It ends on every input, because each pass moves the
      position forward by at least one byte. */
  method OpusGranules(data: seq<byte>) returns (total: int, ghost starts: seq<nat>)
    ensures total == Scanned(data, 0, 0).1 && starts == Scanned(data, 0, 0).0
  {
    var pos: nat := 0;
    total := 0;
    starts := [];
    ghost var goal := Scanned(data, 0, 0);
    assert [] + goal.0 == goal.0;
    while true
      invariant goal == After(starts, Scanned(data, pos, total))
      decreases |data| - pos
    {
      var n := if pos >= |data| then 0 else if |data| - pos < 27 then |data| - pos else 27;
      if n < 27 {
        return;
      }
      var buf := data[pos..pos + 27];
      Inner(data, pos, 27, 0, 4);
      ghost var start, before := pos, starts;
      pos := pos + 27;
      if buf[0..4] != PATTERN {
        pos := pos - 26;
        continue;
      }
      starts := starts + [start];
      var cut;
      total, pos, cut := ReadPage(data, start, buf, pos, total);
      if cut {
        return;
      }
      AfterOne(before, start, Scanned(data, pos, total));
    }
  }

  /** One page whose header `buf` has been read: takes its granule position and skips its body, unless
      the segment table is cut off. */
  method ReadPage(data: seq<byte>, ghost start: nat, buf: seq<byte>, after: nat, best: int)
    returns (total: int, pos: nat, cut: bool)
    requires start + HEADER == after <= |data| && buf == data[start..after]
    ensures total == Max(best, GranuleAt(data, start))
    ensures cut <==> after + data[start + 26] > |data|
    ensures !cut ==> pos == after + data[start + 26] + Sum(data[after..after + data[start + 26]])
  {
    Inner(data, start, 27, 6, 14);
    var granule := Signed64(LittleEndian(buf[6..14]));
    total, pos := best, after;
    if granule > total {
      total := granule;
    }
    var segments := buf[26];
    cut := pos + segments > |data|;
    if cut {
      return;
    }
    var table := data[pos..pos + segments];
    pos := pos + segments;
    var pageSize := TableSum(table);
    pos := pos + pageSize;
  }

  lemma Inner(data: seq<byte>, pos: nat, n: nat, i: nat, j: nat)
    requires i <= j <= n && pos + n <= |data|
    ensures data[pos..pos + n][i..j] == data[pos + i..pos + j]
  {
    var a, b := data[pos..pos + n][i..j], data[pos + i..pos + j];
    assert forall k :: 0 <= k < j - i ==> a[k] == data[pos + i + k] && b[k] == data[pos + i + k];
  }

  method TableSum(table: seq<byte>) returns (pageSize: nat)
    ensures pageSize == Sum(table)
  {
    pageSize := 0;
    for i := 0 to |table|
      invariant pageSize == Sum(table[..i])
    {
      assert table[..i + 1][..i] == table[..i];
      pageSize := pageSize + table[i];
    }
    assert table[..|table|] == table;
  }

  // ---------------------------------------------------------- well-formed streams

  /** A page: its header fields, its segment table, and a body as long as the table says. */
  datatype Page = Page(flags: seq<byte>, granule: seq<byte>, ids: seq<byte>, table: seq<byte>, body: seq<byte>)

  ghost predicate WellFormed(p: Page) {
    && |p.flags| == 2      // version, header type
    && |p.granule| == 8
    && |p.ids| == 12       // serial number, sequence number, checksum
    && |p.table| < 256
    && |p.body| == Sum(p.table)
  }

  function Encode(p: Page): seq<byte>
    requires |p.table| < 256
  {
    PATTERN + p.flags + p.granule + p.ids + [|p.table| as byte] + p.table + p.body
  }

  ghost predicate AllWellFormed(ps: seq<Page>) {
    forall i :: 0 <= i < |ps| ==> WellFormed(ps[i])
  }

  function Stream(ps: seq<Page>): seq<byte>
    requires forall i :: 0 <= i < |ps| ==> |ps[i].table| < 256
  {
    if ps == [] then [] else Encode(ps[0]) + Stream(ps[1..])
  }

  function Granule(p: Page): int {
    Signed64(LittleEndian(p.granule))
  }

  function Largest(ps: seq<Page>, best: int): int {
    if ps == [] then best else Largest(ps[1..], Max(best, Granule(ps[0])))
  }

  /** Where the pages start when the first starts at `pos`. */
  function Starts(ps: seq<Page>, pos: nat): seq<nat>
    requires forall i :: 0 <= i < |ps| ==> |ps[i].table| < 256
  {
    if ps == [] then [] else [pos] + Starts(ps[1..], pos + |Encode(ps[0])|)
  }

  predicate PatternAt(bs: seq<byte>, i: nat) {
    i + 4 <= |bs| && bs[i..i + 4] == PATTERN
  }

  ghost predicate HoldsPattern(bs: seq<byte>) {
    exists i: nat :: PatternAt(bs, i)
  }

  lemma PageFields(p: Page, rest: seq<byte>)
    requires WellFormed(p)
    ensures
      var e := Encode(p) + rest;
      var n := |p.table|;
      && |Encode(p)| == HEADER + n + Sum(p.table)
      && e[0..4] == PATTERN && e[6..14] == p.granule && e[26] == n && e[27..27 + n] == p.table
  {
  }

  lemma Window(data: seq<byte>, pos: nat, i: nat, j: nat)
    requires i <= j && pos + j <= |data|
    ensures data[pos + i..pos + j] == data[pos..][i..j]
  {
  }

  /** One well-formed page is read as such, and the scan goes on right behind it. */
  lemma ScanPage(data: seq<byte>, pos: nat, p: Page, rest: seq<byte>, best: int)
    requires WellFormed(p) && pos <= |data| && data[pos..] == Encode(p) + rest
    ensures
      var r := Scanned(data, pos + |Encode(p)|, Max(best, Granule(p)));
      Scanned(data, pos, best) == ([pos] + r.0, r.1)
  {
    PageFields(p, rest);
    var e := Encode(p) + rest;
    Window(data, pos, 0, 4);
    Window(data, pos, 6, 14);
    Window(data, pos, 27, 27 + |p.table|);
    assert data[pos + 26] == data[pos..][26];
  }

  lemma Behind(data: seq<byte>, pos: nat, a: seq<byte>, b: seq<byte>, c: seq<byte>)
    requires pos <= |data| && data[pos..] == a + b + c
    ensures data[pos..] == a + (b + c) && pos + |a| + |b| <= |data| && data[pos + |a|..] == b + c
  {
    assert a + b + c == a + (b + c);
    assert data[pos + |a|..] == data[pos..][|a|..];
  }

  /** A concatenation of well-formed pages is read page by page, whatever is found behind it. */
  lemma {:induction false} ScanThrough(
      data: seq<byte>, pos: nat, ps: seq<Page>, rest: seq<byte>, best: int, end: nat, top: int)
    requires AllWellFormed(ps) && pos <= |data| && data[pos..] == Stream(ps) + rest
    requires end == pos + |Stream(ps)| && top == Largest(ps, best)
    ensures Scanned(data, pos, best) == After(Starts(ps, pos), Scanned(data, end, top))
    decreases |ps|
  {
    if ps == [] {
      AfterNone(Scanned(data, end, top), [], best);
    } else {
      var next := pos + |Encode(ps[0])|;
      Behind(data, pos, Encode(ps[0]), Stream(ps[1..]), rest);
      ScanPage(data, pos, ps[0], Stream(ps[1..]) + rest, best);
      ScanThrough(data, next, ps[1..], rest, Max(best, Granule(ps[0])), end, top);
      AfterMore(pos, Starts(ps[1..], next), Scanned(data, end, top));
    }
  }

  lemma {:induction false} ScanPages(data: seq<byte>, pos: nat, ps: seq<Page>, best: int)
    requires AllWellFormed(ps) && pos <= |data| && data[pos..] == Stream(ps)
    ensures Scanned(data, pos, best) == (Starts(ps, pos), Largest(ps, best))
    decreases |ps|
  {
    if ps == [] {
      assert pos == |data|;
    } else {
      ScanPage(data, pos, ps[0], Stream(ps[1..]), best);
      var next := pos + |Encode(ps[0])|;
      assert data[next..] == data[pos..][|Encode(ps[0])|..];
      ScanPages(data, next, ps[1..], Max(best, Granule(ps[0])));
    }
  }

  /** The capture pattern overlaps no shift of itself, so none straddles the end of the prefix. */
  lemma NoStraddle(prefix: seq<byte>, rest: seq<byte>, i: nat)
    requires !HoldsPattern(prefix) && i < |prefix|
    requires |rest| >= 4 && rest[..4] == PATTERN
    ensures (prefix + rest)[i..i + 4] != PATTERN
  {
    var d := prefix + rest;
    if i + 4 <= |prefix| {
      assert d[i..i + 4] == prefix[i..i + 4];
      assert !PatternAt(prefix, i);
    } else {
      assert d[|prefix|] == rest[0] == rest[..4][0] == 0x4F;
      assert d[i..i + 4][|prefix| - i] == d[|prefix|];
    }
  }

  lemma {:induction false} SkipPrefix(data: seq<byte>, prefix: seq<byte>, rest: seq<byte>, pos: nat, best: int)
    requires data == prefix + rest && pos <= |prefix|
    requires !HoldsPattern(prefix)
    requires |rest| >= HEADER && rest[..4] == PATTERN
    ensures Scanned(data, pos, best) == Scanned(data, |prefix|, best)
    decreases |prefix| - pos
  {
    if pos < |prefix| {
      NoStraddle(prefix, rest, pos);
      SkipPrefix(data, prefix, rest, pos + 1, best);
    }
  }

  lemma {:induction false} NoPatternNoPages(data: seq<byte>, pos: nat, best: int)
    requires !HoldsPattern(data)
    ensures Scanned(data, pos, best) == ([], best)
    decreases |data| - pos
  {
    if pos + HEADER <= |data| {
      assert !PatternAt(data, pos);
      NoPatternNoPages(data, pos + 1, best);
    }
  }

  /** On any prefix free of the capture pattern followed by any concatenation of well-formed pages, the
      scan reads exactly the page starts and finds the maximum of zero and all granule positions. */
  lemma ScanFindsPages(prefix: seq<byte>, ps: seq<Page>)
    requires !HoldsPattern(prefix) && AllWellFormed(ps)
    ensures Scanned(prefix + Stream(ps), 0, 0) == (Starts(ps, |prefix|), Largest(ps, 0))
  {
    var data := prefix + Stream(ps);
    if ps == [] {
      assert data == prefix;
      NoPatternNoPages(data, 0, 0);
    } else {
      PageFields(ps[0], Stream(ps[1..]));
      assert Stream(ps)[..4] == Stream(ps)[0..4];
      SkipPrefix(data, prefix, Stream(ps), 0, 0);
      assert data[|prefix|..] == Stream(ps);
      ScanPages(data, |prefix|, ps, 0);
    }
  }

  /** The largest value is reached by zero or some page, and no page exceeds it. */
  lemma {:induction false} LargestIsMaximum(ps: seq<Page>, best: int)
    ensures best <= Largest(ps, best)
    ensures forall i :: 0 <= i < |ps| ==> Granule(ps[i]) <= Largest(ps, best)
    ensures Largest(ps, best) == best || exists i :: 0 <= i < |ps| && Granule(ps[i]) == Largest(ps, best)
  {
    if ps != [] {
      var best' := Max(best, Granule(ps[0]));
      LargestIsMaximum(ps[1..], best');
      var r := Largest(ps, best);
      forall i | 0 <= i < |ps|
        ensures Granule(ps[i]) <= r
      {
        if i > 0 {
          assert ps[i] == ps[1..][i - 1];
        }
      }
      if r != best {
        if r == Granule(ps[0]) {
        } else {
          var j :| 0 <= j < |ps[1..]| && Granule(ps[1..][j]) == r;
          assert ps[j + 1] == ps[1..][j];
        }
      }
    }
  }

  // ---------------------------------------------------- pages written from numbers

  /** The k lowest base-256 digits of n, lowest first. */
  function Digits(n: nat, k: nat): (r: seq<byte>)
    ensures |r| == k
  {
    if k == 0 then [] else [n % 256] + Digits(n / 256, k - 1)
  }

  function Power(k: nat): nat {
    if k == 0 then 1 else 256 * Power(k - 1)
  }

  lemma {:induction false} DigitsRead(n: nat, k: nat)
    requires n < Power(k)
    ensures LittleEndian(Digits(n, k)) == n
  {
    if k > 0 {
      DigitsRead(n / 256, k - 1);
      assert Digits(n, k)[1..] == Digits(n / 256, k - 1);
    }
  }

  lemma PowerEight()
    ensures Power(8) == 0x1_0000_0000_0000_0000
  {
    assert Power(2) == 0x1_0000;
    assert Power(4) == 0x1_0000_0000;
    assert Power(6) == 0x1_0000_0000_0000;
  }

  /** A granule position as its eight bytes: n modulo 2^64, lowest byte first. */
  function GranuleBytes(n: int): seq<byte> {
    Digits(n % 0x1_0000_0000_0000_0000, 8)
  }

  /** Every 64-bit position is read back from its bytes. */
  lemma GranuleRead(n: int)
    requires -0x8000_0000_0000_0000 <= n < 0x8000_0000_0000_0000
    ensures Signed64(LittleEndian(GranuleBytes(n))) == n
  {
    PowerEight();
    DigitsRead(n % 0x1_0000_0000_0000_0000, 8);
  }

  /** What a page is written from. */
  datatype Source = Source(flags: seq<byte>, position: int, ids: seq<byte>, table: seq<byte>, body: seq<byte>)

  ghost predicate Proper(p: Source) {
    && |p.flags| == 2 && |p.ids| == 12 && |p.table| < 256 && |p.body| == Sum(p.table)
    && -0x8000_0000_0000_0000 <= p.position < 0x8000_0000_0000_0000
  }

  ghost predicate AllProper(ps: seq<Source>) {
    forall i :: 0 <= i < |ps| ==> Proper(ps[i])
  }

  /** Section 6 of RFC 3533: the capture pattern "OggS", version and type, granule position, serial and page
      number and checksum, the number of segments, the segment table, the segments. */
  function PageBytes(p: Source): seq<byte>
    requires |p.table| < 256
  {
    [0x4F, 0x67, 0x67, 0x53] + p.flags + GranuleBytes(p.position) + p.ids + [|p.table| as byte] + p.table + p.body
  }

  function File(ps: seq<Source>): seq<byte>
    requires forall i :: 0 <= i < |ps| ==> |ps[i].table| < 256
  {
    if ps == [] then [] else PageBytes(ps[0]) + File(ps[1..])
  }

  /** The offset of page i. */
  function OffsetOf(ps: seq<Source>, i: nat): nat
    requires i <= |ps|
  {
    if i == 0 then 0 else OffsetOf(ps, i - 1) + 27 + |ps[i - 1].table| + |ps[i - 1].body|
  }

  function AsPage(p: Source): Page {
    Page(p.flags, GranuleBytes(p.position), p.ids, p.table, p.body)
  }

  function AsPages(ps: seq<Source>): (r: seq<Page>)
    ensures |r| == |ps| && forall i :: 0 <= i < |ps| ==> r[i] == AsPage(ps[i])
  {
    if ps == [] then [] else [AsPage(ps[0])] + AsPages(ps[1..])
  }

  lemma ProperPage(p: Source)
    requires Proper(p)
    ensures WellFormed(AsPage(p)) && Granule(AsPage(p)) == p.position
    ensures Encode(AsPage(p)) == PageBytes(p) && |PageBytes(p)| == 27 + |p.table| + |p.body|
  {
    GranuleRead(p.position);
  }

  lemma {:induction false} ProperStream(ps: seq<Source>)
    requires AllProper(ps)
    ensures AllWellFormed(AsPages(ps)) && Stream(AsPages(ps)) == File(ps)
  {
    if ps != [] {
      ProperPage(ps[0]);
      ProperStream(ps[1..]);
      assert AsPages(ps)[1..] == AsPages(ps[1..]);
      forall i | 0 <= i < |ps|
        ensures WellFormed(AsPages(ps)[i])
      {
        ProperPage(ps[i]);
      }
    }
  }

  ghost predicate TablesFit(ps: seq<Page>) {
    forall i :: 0 <= i < |ps| ==> |ps[i].table| < 256
  }

  lemma {:induction false} StartsLength(ps: seq<Page>, pos: nat)
    requires TablesFit(ps)
    ensures |Starts(ps, pos)| == |ps|
    decreases |ps|
  {
    if ps != [] {
      StartsLength(ps[1..], pos + |Encode(ps[0])|);
    }
  }

  /** Each page starts where the one before it ends. */
  lemma {:induction false} StartsNext(ps: seq<Page>, pos: nat, i: nat)
    requires TablesFit(ps) && i + 1 < |ps| == |Starts(ps, pos)|
    ensures Starts(ps, pos)[i + 1] == Starts(ps, pos)[i] + |Encode(ps[i])|
    decreases |ps|
  {
    var next := pos + |Encode(ps[0])|;
    if i > 0 {
      StartsNext(ps[1..], next, i - 1);
    } else {
      assert Starts(ps[1..], next)[0] == next;
    }
  }

  lemma {:induction false} StartsAt(ps: seq<Source>, pos: nat, i: nat)
    requires AllProper(ps) && TablesFit(AsPages(ps)) && i < |ps| == |Starts(AsPages(ps), pos)|
    ensures Starts(AsPages(ps), pos)[i] == pos + OffsetOf(ps, i)
    decreases i
  {
    if i > 0 {
      StartsAt(ps, pos, i - 1);
      StartsNext(AsPages(ps), pos, i - 1);
      ProperPage(ps[i - 1]);
    }
  }

  /** The largest of zero and the pages' positions. */
  ghost predicate IsLargest(total: int, ps: seq<Source>) {
    && total >= 0 && (forall i :: 0 <= i < |ps| ==> ps[i].position <= total)
    && (total == 0 || exists i :: 0 <= i < |ps| && ps[i].position == total)
  }

  lemma LargestPosition(ps: seq<Source>)
    requires AllProper(ps)
    ensures IsLargest(Largest(AsPages(ps), 0), ps)
  {
    var pages := AsPages(ps);
    forall i | 0 <= i < |ps|
      ensures Granule(pages[i]) == ps[i].position
    {
      ProperPage(ps[i]);
    }
    LargestIsMaximum(pages, 0);
  }

  ghost predicate AtOffsets(starts: seq<nat>, pos: nat, ps: seq<Source>) {
    |starts| == |ps| && forall i :: 0 <= i < |ps| ==> starts[i] == pos + OffsetOf(ps, i)
  }

  lemma StartsAtOffsets(ps: seq<Source>, pos: nat)
    requires AllProper(ps) && TablesFit(AsPages(ps))
    ensures AtOffsets(Starts(AsPages(ps), pos), pos, ps)
  {
    StartsLength(AsPages(ps), pos);
    forall i | 0 <= i < |ps|
      ensures Starts(AsPages(ps), pos)[i] == pos + OffsetOf(ps, i)
    {
      StartsAt(ps, pos, i);
    }
  }

  /** The scan reads exactly these pages, the first at pos, and finds the largest position. */
  ghost predicate Reads(data: seq<byte>, pos: nat, ps: seq<Source>) {
    IsLargest(Scanned(data, 0, 0).1, ps) && AtOffsets(Scanned(data, 0, 0).0, pos, ps)
  }

  /** Any prefix free of "OggS" followed by pages written with the given positions: the total found is the
      largest of zero and those positions, and one page is read at each offset, after the prefix. */
  lemma ScanFindsPositions(prefix: seq<byte>, ps: seq<Source>)
    requires !HoldsPattern(prefix) && AllProper(ps)
    ensures Reads(prefix + File(ps), |prefix|, ps)
  {
    ProperStream(ps);
    ScanFindsPages(prefix, AsPages(ps));
    LargestPosition(ps);
    StartsAtOffsets(ps, |prefix|);
  }

  // ---------------------------------------------------------------- files cut short

  /** What is left of a page cut before its header ends is not read. */
  lemma {:induction false} ShortTail(prefix: seq<byte>, tail: seq<byte>, pos: nat, best: int)
    requires !HoldsPattern(prefix) && |tail| < HEADER && (|tail| >= 4 ==> tail[..4] == PATTERN)
    ensures Scanned(prefix + tail, pos, best) == ([], best)
    decreases |prefix| + |tail| - pos
  {
    if pos + HEADER <= |prefix + tail| {
      if pos + 4 <= |prefix| {
        assert !PatternAt(prefix, pos);
        assert (prefix + tail)[pos..pos + 4] == prefix[pos..pos + 4];
      } else {
        NoStraddle(prefix, tail, pos);
      }
      ShortTail(prefix, tail, pos + 1, best);
    }
  }

  lemma HeaderFields(p: Source, k: nat)
    requires Proper(p) && 27 <= k <= |PageBytes(p)|
    ensures
      var e := PageBytes(p)[..k];
      && e[0..4] == PATTERN && e[6..14] == GranuleBytes(p.position) && e[26] == |p.table|
      && (27 + |p.table| <= k ==> e[27..27 + |p.table|] == p.table)
  {
    ProperPage(p);
    PageFields(AsPage(p), []);
    var e := PageBytes(p);
    assert e + [] == e;
    Start(e, k, 0, 4);
    Start(e, k, 6, 14);
    if 27 + |p.table| <= k {
      Start(e, k, 27, 27 + |p.table|);
    }
  }

  lemma Start(bs: seq<byte>, k: nat, i: nat, j: nat)
    requires i <= j <= k <= |bs|
    ensures bs[..k][i..j] == bs[i..j]
  {
  }

  lemma HeaderBegins(p: Source, k: nat)
    requires Proper(p) && 27 <= k <= |PageBytes(p)|
    ensures |PageBytes(p)[..k]| == k && PageBytes(p)[..k][..4] == PATTERN
  {
    HeaderFields(p, k);
    assert PageBytes(p)[..k][..4] == PageBytes(p)[..k][0..4];
  }

  lemma HeaderAt(data: seq<byte>, pos: nat, p: Source, k: nat)
    requires Proper(p) && 27 <= k <= |PageBytes(p)| && pos <= |data| && data[pos..] == PageBytes(p)[..k]
    ensures |data| == pos + k && data[pos..pos + 4] == PATTERN && data[pos + 26] == |p.table|
    ensures GranuleAt(data, pos) == p.position
    ensures 27 + |p.table| <= k ==> data[pos + 27..pos + 27 + |p.table|] == p.table
  {
    ProperPage(p);
    HeaderFields(p, k);
    Window(data, pos, 0, 4);
    Window(data, pos, 6, 14);
    assert data[pos + 26] == data[pos..][26];
    if 27 + |p.table| <= k {
      Window(data, pos, 27, 27 + |p.table|);
    }
  }

  lemma ScanShort(data: seq<byte>, pos: nat, best: int)
    requires pos + HEADER > |data|
    ensures Scanned(data, pos, best) == ([], best)
  {
  }

  lemma CutInTable(data: seq<byte>, pos: nat, best: int)
    requires pos + HEADER <= |data| < pos + HEADER + data[pos + 26] && data[pos..pos + 4] == PATTERN
    ensures Scanned(data, pos, best) == ([pos], Max(best, GranuleAt(data, pos)))
  {
  }

  lemma CutInBody(data: seq<byte>, pos: nat, best: int, n: nat)
    requires pos + HEADER + n <= |data| && data[pos..pos + 4] == PATTERN && data[pos + 26] == n
    requires |data| <= pos + HEADER + n + Sum(data[pos + HEADER..pos + HEADER + n])
    ensures Scanned(data, pos, best) == ([pos], Max(best, GranuleAt(data, pos)))
  {
    var best' := Max(best, GranuleAt(data, pos));
    ScanShort(data, pos + HEADER + n + Sum(data[pos + HEADER..pos + HEADER + n]), best');
    assert [pos] + [] == [pos];
  }

  /** A page cut behind its header is read, and nothing after it. */
  lemma ScanCutPage(data: seq<byte>, pos: nat, p: Source, k: nat, best: int)
    requires Proper(p) && 27 <= k <= |PageBytes(p)| && pos <= |data| && data[pos..] == PageBytes(p)[..k]
    ensures Scanned(data, pos, best) == ([pos], Max(best, p.position))
  {
    HeaderAt(data, pos, p, k);
    if 27 + |p.table| <= k {
      PageLength(p);
      CutInBody(data, pos, best, |p.table|);
    } else {
      CutInTable(data, pos, best);
    }
  }

  lemma PageLength(p: Source)
    requires Proper(p)
    ensures |PageBytes(p)| == 27 + |p.table| + |p.body|
  {
  }

  lemma {:induction false} OffsetsKept(ps: seq<Source>, p: Source, i: nat)
    requires i <= |ps|
    ensures OffsetOf(ps + [p], i) == OffsetOf(ps, i)
  {
    if i > 0 {
      OffsetsKept(ps, p, i - 1);
    }
  }

  lemma FileFrom(ps: seq<Source>, i: nat)
    requires AllProper(ps) && i < |ps|
    ensures |File(ps[i..])| == 27 + |ps[i].table| + |ps[i].body| + |File(ps[i + 1..])|
  {
    PageLength(ps[i]);
    assert ps[i..][0] == ps[i] && ps[i..][1..] == ps[i + 1..];
  }

  lemma {:induction false} OffsetAndRest(ps: seq<Source>, i: nat)
    requires AllProper(ps) && i <= |ps|
    ensures OffsetOf(ps, i) + |File(ps[i..])| == |File(ps)|
  {
    if i == 0 {
      assert ps[0..] == ps;
    } else {
      OffsetAndRest(ps, i - 1);
      FileFrom(ps, i - 1);
    }
  }

  lemma FileLength(ps: seq<Source>)
    requires AllProper(ps)
    ensures |File(ps)| == OffsetOf(ps, |ps|)
  {
    OffsetAndRest(ps, |ps|);
    assert File(ps[|ps|..]) == [];
  }

  lemma LastPosition(total: int, ps: seq<Source>, p: Source)
    requires IsLargest(total, ps)
    ensures IsLargest(Max(total, p.position), ps + [p])
  {
    var all := ps + [p];
    assert all[|ps|] == p;
    if p.position <= total && total != 0 {
      var i :| 0 <= i < |ps| && ps[i].position == total;
      assert all[i].position == total;
    }
  }

  lemma LastOffset(starts: seq<nat>, pos: nat, ps: seq<Source>, p: Source)
    requires AtOffsets(starts, pos, ps)
    ensures AtOffsets(starts + [pos + OffsetOf(ps, |ps|)], pos, ps + [p])
  {
    forall i | 0 <= i < |ps + [p]|
      ensures (starts + [pos + OffsetOf(ps, |ps|)])[i] == pos + OffsetOf(ps + [p], i)
    {
      OffsetsKept(ps, p, i);
    }
  }

  lemma PagesBehind(prefix: seq<byte>, file: seq<byte>, ps: seq<Page>, tail: seq<byte>, top: int)
    requires !HoldsPattern(prefix) && AllWellFormed(ps) && file == Stream(ps) && top == Largest(ps, 0)
    requires |file + tail| >= HEADER && (file + tail)[..4] == PATTERN
    ensures
      var data := prefix + (file + tail);
      Scanned(data, 0, 0) == After(Starts(ps, |prefix|), Scanned(data, |prefix| + |file|, top))
  {
    var data := prefix + (file + tail);
    SkipPrefix(data, prefix, file + tail, 0, 0);
    assert data[|prefix|..] == file + tail;
    ScanThrough(data, |prefix|, ps, tail, 0, |prefix| + |file|, top);
  }

  /** Reading on behind whole pages. */
  lemma ScanBehind(prefix: seq<byte>, ps: seq<Source>, file: seq<byte>, tail: seq<byte>)
    returns (starts: seq<nat>, total: int)
    requires !HoldsPattern(prefix) && AllProper(ps) && file == File(ps)
    requires |file + tail| >= HEADER && (file + tail)[..4] == PATTERN
    ensures IsLargest(total, ps) && AtOffsets(starts, |prefix|, ps)
    ensures
      var data := prefix + (file + tail);
      Scanned(data, 0, 0) == After(starts, Scanned(data, |prefix| + |file|, total))
  {
    var pages := AsPages(ps);
    ProperStream(ps);
    LargestPosition(ps);
    StartsAtOffsets(ps, |prefix|);
    starts, total := Starts(pages, |prefix|), Largest(pages, 0);
    PagesBehind(prefix, file, pages, tail, total);
  }

  lemma BeginsWithPattern(ps: seq<Source>, tail: seq<byte>)
    requires AllProper(ps)
    requires ps == [] ==> |tail| >= HEADER && tail[..4] == PATTERN
    ensures |File(ps) + tail| >= HEADER && (File(ps) + tail)[..4] == PATTERN
  {
    if ps == [] {
      assert File(ps) + tail == tail;
    } else {
      ProperPage(ps[0]);
      PageFields(AsPage(ps[0]), File(ps[1..]) + tail);
      assert File(ps) + tail == PageBytes(ps[0]) + (File(ps[1..]) + tail);
    }
  }

  lemma ReadsWith(data: seq<byte>, pos: nat, ps: seq<Source>, starts: seq<nat>, total: int)
    requires Scanned(data, 0, 0) == (starts, total) && IsLargest(total, ps) && AtOffsets(starts, pos, ps)
    ensures Reads(data, pos, ps)
  {
  }

  lemma CutInHeader(prefix: seq<byte>, ps: seq<Source>, tail: seq<byte>)
    requires !HoldsPattern(prefix) && AllProper(ps) && |tail| < 27 && (|tail| >= 4 ==> tail[..4] == PATTERN)
    ensures Reads(prefix + (File(ps) + tail), |prefix|, ps)
  {
    var data := prefix + (File(ps) + tail);
    if ps == [] {
      assert File(ps) + tail == tail;
      ShortTail(prefix, tail, 0, 0);
      ReadsWith(data, |prefix|, ps, [], 0);
    } else {
      BeginsWithPattern(ps, tail);
      var starts, total := ScanBehind(prefix, ps, File(ps), tail);
      ScanShort(data, |prefix| + |File(ps)|, total);
      AfterNone(([], total), starts, total);
      ReadsWith(data, |prefix|, ps, starts, total);
    }
  }

  lemma CutBehindHeader(prefix: seq<byte>, ps: seq<Source>, p: Source, k: nat)
    requires !HoldsPattern(prefix) && AllProper(ps) && Proper(p) && 27 <= k <= |PageBytes(p)|
    ensures Reads(prefix + (File(ps) + PageBytes(p)[..k]), |prefix|, ps + [p])
  {
    var tail := PageBytes(p)[..k];
    var data := prefix + (File(ps) + tail);
    HeaderBegins(p, k);
    BeginsWithPattern(ps, tail);
    var starts, total := ScanBehind(prefix, ps, File(ps), tail);
    var at := |prefix| + |File(ps)|;
    EndsWith(prefix, File(ps), tail);
    ScanCutPage(data, at, p, k, total);
    FileLength(ps);
    LastPosition(total, ps, p);
    LastOffset(starts, |prefix|, ps, p);
    ReadsWith(data, |prefix|, ps + [p], starts + [at], Max(total, p.position));
  }

  lemma EndsWith(a: seq<byte>, b: seq<byte>, c: seq<byte>)
    ensures (a + (b + c))[|a| + |b|..] == c
  {
  }

  /** A file cut short anywhere: behind whole pages, k bytes of another one. The page cut is read if and
      only if its header of 27 bytes is left, and the whole pages are read in any case. */
  lemma ScanCutFile(prefix: seq<byte>, ps: seq<Source>, p: Source, k: nat)
    requires !HoldsPattern(prefix) && AllProper(ps) && Proper(p) && k <= |PageBytes(p)|
    ensures Reads(prefix + (File(ps) + PageBytes(p)[..k]), |prefix|, if k < 27 then ps else ps + [p])
  {
    if k < 27 {
      CutInHeader(prefix, ps, PageBytes(p)[..k]);
    } else {
      CutBehindHeader(prefix, ps, p, k);
    }
  }
}
