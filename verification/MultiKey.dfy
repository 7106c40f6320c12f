/**
 Multi-key channels: the keys are one text, either a JSON array or one key a line,
 and three maps keyed by key index hold status, disabling time and reason. Deleting
 keys rebuilds text and maps, and everything is written through `Update`, which
 counts the keys again.

 Reading JSON is a parameter: any partial function from texts to lists of raw items.

 A class field stands for the stored row: a request that fails before `Update`
 leaves it untouched. Absent and empty maps read the same and are not told apart.
 */
module MultiKey {
  import opened Basics
  import Text

  const ENABLED := 1
  const MANUALLY_DISABLED := 2
  const AUTO_DISABLED := 3

  datatype Row = Row(key: string, size: int, status: map<int, int>, time: map<int, int>, reason: map<int, string>)

  datatype KeyStatus = KeyStatus(index: int, status: int, disabledTime: int, reason: string, preview: string)

  /** The raw items of a text that is a JSON array. */
  type Json = string -> Option<seq<string>>

  // ------------------------------------------------------------------ reading a row

  predicate LooksLikeArray(text: string) {
    Text.Leading(text) == Some('[')
  }

  /** That is, the trimmed text starts with a bracket. */
  lemma StartsWithBracket(text: string)
    ensures LooksLikeArray(text) <==> "[" <= Text.Trim(text)
  {
    Text.TrimLeading(text);
  }

  function Items(text: string, json: Json): Option<seq<string>> {
    if LooksLikeArray(text) then json(Text.Trim(text)) else None
  }

  /** The keys in a text. */
  function Read(text: string, json: Json): seq<string> {
    if Items(text, json).Some? then Items(text, json).value else Text.Parse(text, '\n')
  }

  /** How many keys `Update` counts: unlike `Read` it takes an empty array for one line. */
  function Count(text: string, json: Json): nat {
    if Read(text, json) == [] then |Text.Parse(text, '\n')| else |Read(text, json)|
  }

  function Keys(row: Row, json: Json): seq<string> {
    Read(row.key, json)
  }

  function StatusOf(status: map<int, int>, i: int): int {
    if i in status then status[i] else ENABLED
  }

  function Preview(key: string): string {
    if |key| > 10 then key[..10] + "..." else key
  }

  function EntryFor(row: Row, i: int, key: string): KeyStatus {
    var s := StatusOf(row.status, i);
    KeyStatus(i, s,
              if s != ENABLED && i in row.time then row.time[i] else 0,
              if s != ENABLED && i in row.reason then row.reason[i] else "",
              Preview(key))
  }

  /** The list behind get_key_status, before filtering by status and paging. */
  function StatusList(row: Row, json: Json): (r: seq<KeyStatus>)
    ensures |r| == |Keys(row, json)|
    ensures forall i :: 0 <= i < |r| ==> r[i] == EntryFor(row, i, Keys(row, json)[i])
  {
    var keys := Keys(row, json);
    seq(|keys|, i requires 0 <= i < |keys| => EntryFor(row, i, keys[i]))
  }

  // ----------------------------------------------------------------- writing a row

  /** Storing a row: an empty key text means "not provided", so the stored one stays; the size is
      counted again and status entries beyond it are dropped. */
  function Update(stored: Row, row: Row, json: Json): Row {
    var key := if row.key != "" then row.key else stored.key;
    var size := Count(key, json);
    Row(key, size, map i | i in row.status && i < size :: row.status[i], row.time, row.reason)
  }

  /** Indices below n that are not gone, in order. */
  function Survivors(n: nat, gone: set<int>): (r: seq<nat>)
    ensures |r| <= n
    ensures forall j :: 0 <= j < |r| ==> r[j] < n
  {
    if n == 0 then []
    else if n - 1 in gone then Survivors(n - 1, gone)
    else Survivors(n - 1, gone) + [n - 1]
  }

  /** Survivors are exactly the indices not gone, strictly ascending. */
  lemma {:induction false} SurvivorsExact(n: nat, gone: set<int>, i: int)
    ensures i in Survivors(n, gone) <==> 0 <= i < n && i !in gone
    ensures var r := Survivors(n, gone); forall j :: 0 < j < |r| ==> r[j - 1] < r[j]
  {
    if n > 0 {
      SurvivorsExact(n - 1, gone, i);
    }
  }

  function Pick<T>(xs: seq<T>, at: seq<nat>): (r: seq<T>)
    requires forall j :: 0 <= j < |at| ==> at[j] < |xs|
    ensures |r| == |at| && forall j :: 0 <= j < |at| ==> r[j] == xs[at[j]]
  {
    seq(|at|, j requires 0 <= j < |at| => xs[at[j]])
  }

  lemma PickGrows<T>(xs: seq<T>, at: seq<nat>, i: nat)
    requires i < |xs| && forall j :: 0 <= j < |at| ==> at[j] < |xs|
    ensures forall j :: 0 <= j < |at + [i]| ==> (at + [i])[j] < |xs|
    ensures Pick(xs, at + [i]) == Pick(xs, at) + [xs[i]]
  {
  }

  /** The keys left when `gone` are deleted. */
  function Rest(keys: seq<string>, gone: set<int>): (r: seq<string>)
    ensures |r| == |Survivors(|keys|, gone)|
  {
    Pick(keys, Survivors(|keys|, gone))
  }

  /** The map under new indices; `keep` says which surviving old indices carry their entry over. */
  function Reindexed<T>(m: map<int, T>, at: seq<nat>, keep: set<int>): map<int, T> {
    map j: int | 0 <= j < |at| && at[j] in m && at[j] in keep :: m[at[j]]
  }

  /** Old indices whose status is worth storing. */
  function NotEnabled(status: map<int, int>): set<int> {
    set i | i in status && status[i] != ENABLED
  }

  function AutoDisabled(row: Row): set<int> {
    set i | i in row.status && row.status[i] == AUTO_DISABLED
  }

  /** What a delete action carries over: the keys kept and their entries under new indices. */
  datatype Carried = Carried(keys: seq<string>, status: map<int, int>, time: map<int, int>, reason: map<int, string>)

  function CarriedAt(row: Row, keys: seq<string>, at: seq<nat>, keepStatus: set<int>, keepTime: set<int>): Carried
    requires forall j :: 0 <= j < |at| ==> at[j] < |keys|
  {
    Carried(Pick(keys, at), Reindexed(row.status, at, keepStatus), Reindexed(row.time, at, keepTime),
            Reindexed(row.reason, at, keepTime))
  }

  function Rebuilt(row: Row, keys: seq<string>, gone: set<int>, keepStatus: set<int>, keepTime: set<int>): Row {
    var c := CarriedAt(row, keys, Survivors(|keys|, gone), keepStatus, keepTime);
    Row(Text.Join(c.keys, '\n'), |c.keys|, c.status, c.time, c.reason)
  }

  /** The row a delete action hands to `Update`. */
  function Without(row: Row, gone: set<int>, keepTime: set<int>, json: Json): Row {
    Rebuilt(row, Keys(row, json), gone, NotEnabled(row.status), keepTime)
  }

  function AllIndices(row: Row): set<int> {
    row.time.Keys + row.reason.Keys
  }

  datatype Action =
    | DisableKey(index: Option<int>)
    | EnableKey(index: Option<int>)
    | EnableAllKeys
    | DisableAllKeys
    | DeleteKey(index: Option<int>)
    | DeleteDisabledKeys

  predicate InRange(row: Row, index: Option<int>) {
    index.Some? && 0 <= index.value < row.size
  }

  function NowDisabled(row: Row): map<int, int> {
    map i: int | 0 <= i < row.size && StatusOf(row.status, i) == ENABLED :: MANUALLY_DISABLED
  }

  function Disabled(row: Row, i: int): Row {
    row.(status := row.status[i := MANUALLY_DISABLED])
  }

  function Enabled(row: Row, i: int): Row {
    row.(status := row.status - {i}, time := row.time - {i}, reason := row.reason - {i})
  }

  /** Whether the action succeeds, and the stored row after it. */
  function Perform(row: Row, a: Action, json: Json): (bool, Row) {
    match a
    case DisableKey(i) =>
      if InRange(row, i) then (true, Update(row, Disabled(row, i.value), json)) else (false, row)
    case EnableKey(i) =>
      if InRange(row, i) then (true, Update(row, Enabled(row, i.value), json)) else (false, row)
    case EnableAllKeys => (true, Update(row, row.(status := map[], time := map[], reason := map[]), json))
    case DisableAllKeys =>
      if NowDisabled(row) == map[] then (false, row)
      else (true, Update(row, row.(status := row.status + NowDisabled(row)), json))
    case DeleteKey(i) =>
      if InRange(row, i) && Survivors(|Keys(row, json)|, {i.value}) != [] then
        (true, Update(row, Without(row, {i.value}, AllIndices(row), json), json))
      else (false, row)
    case DeleteDisabledKeys =>
      if |Survivors(|Keys(row, json)|, AutoDisabled(row))| == |Keys(row, json)| then (false, row)
      else (true, Update(row, Without(row, AutoDisabled(row), NotEnabled(row.status), json), json))
  }

  // ------------------------------------------------------- what get_key_status answers

  function WithStatus(list: seq<KeyStatus>, status: Option<int>): seq<KeyStatus> {
    if status.None? || list == [] then list
    else
      var n := |list| - 1;
      var r := WithStatus(list[..n], status);
      if list[n].status == status.value then r + [list[n]] else r
  }

  function Tally(list: seq<KeyStatus>, status: int): nat {
    if list == [] then 0
    else Tally(list[..|list| - 1], status) + if list[|list| - 1].status == status then 1 else 0
  }

  /** Page p, counting from 1, of size n. */
  function PageOf<T>(list: seq<T>, p: int, n: int): seq<T>
    requires p >= 1 && n >= 1
  {
    var start := Times(p - 1, n);
    if start < |list| then list[start..Min(start + n, |list|)] else []
  }

  /** The number of pages, at least 1. */
  function PageCount(total: nat, n: int): (r: int)
    requires n >= 1
    ensures r >= 1
  {
    var pages := (total + n - 1) / n;
    if pages == 0 then 1 else pages
  }

  datatype Answer = Answer(keys: seq<KeyStatus>, total: nat, page: int, pageSize: int, totalPages: int,
                           enabled: nat, manual: nat, auto: nat)

  const DEFAULT_PAGE_SIZE := 50

  function AnswerFor(list: seq<KeyStatus>, status: Option<int>, page: int, pageSize: int): Answer {
    var shown := WithStatus(list, status);
    var n := if pageSize <= 0 then DEFAULT_PAGE_SIZE else pageSize;
    var pages := PageCount(|shown|, n);
    var p := if page <= 0 then 1 else Min(page, pages);
    Answer(PageOf(shown, p, n), |shown|, p, n, pages,
           Tally(list, ENABLED), Tally(list, MANUALLY_DISABLED), Tally(list, AUTO_DISABLED))
  }

  /** The first p pages, one after the other. */
  function Pages<T>(list: seq<T>, p: nat, n: int): seq<T>
    requires n >= 1
  {
    if p == 0 then [] else Pages(list, p - 1, n) + PageOf(list, p, n)
  }

  lemma {:induction false} FirstPages<T>(list: seq<T>, p: nat, n: int)
    requires n >= 1
    ensures Pages(list, p, n) == list[..Min(Times(p, n), |list|)]
  {
    if p > 0 {
      FirstPages(list, p - 1, n);
      AddPage(list, p, n);
    }
  }

  lemma AddPage<T>(list: seq<T>, p: nat, n: int)
    requires p >= 1 && n >= 1
    ensures list[..Min(Times(p, n), |list|)] == list[..Min(Times(p - 1, n), |list|)] + PageOf(list, p, n)
  {
    var a := Times(p - 1, n);
    if a < |list| {
      assert list[..Min(a + n, |list|)] == list[..a] + list[a..Min(a + n, |list|)];
    }
  }

  lemma EnoughPages(total: nat, n: int)
    requires n >= 1
    ensures Times(PageCount(total, n), n) >= total
  {
    var x := total + n - 1;
    assert x == (x / n) * n + x % n;
    TimesIsProduct(PageCount(total, n), n);
  }

  /** Whatever the page size, the pages together are the whole list, in order. */
  lemma PagesCover<T>(list: seq<T>, n: int)
    requires n >= 1
    ensures Pages(list, PageCount(|list|, n), n) == list
  {
    FirstPages(list, PageCount(|list|, n), n);
    EnoughPages(|list|, n);
  }

  /** Filtering by status keeps exactly the entries with that status, in order. */
  lemma {:induction false} WithStatusExact(list: seq<KeyStatus>, status: Option<int>, x: KeyStatus)
    ensures x in WithStatus(list, status) <==> x in list && (status.Some? ==> x.status == status.value)
    ensures status.Some? ==> |WithStatus(list, status)| == Tally(list, status.value)
  {
    if status.Some? && list != [] {
      var n := |list| - 1;
      WithStatusExact(list[..n], status, x);
      assert list == list[..n] + [list[n]];
    }
  }

  /** What an answer holds: page and size default to 1 and 50; a page past the last is the last; the page is
      that stretch of the list; and the counts are over all keys, filtered or not. */
  lemma AnswerExact(list: seq<KeyStatus>, status: Option<int>, page: int, pageSize: int)
    ensures
      var a, shown := AnswerFor(list, status, page, pageSize), WithStatus(list, status);
      && a.total == |shown| && a.totalPages == PageCount(a.total, a.pageSize)
      && a.pageSize == (if pageSize > 0 then pageSize else 50)
      && a.page == (if page <= 0 then 1 else if page > a.totalPages then a.totalPages else page)
      && a.keys == Stretch(shown, (a.page - 1) * a.pageSize, a.pageSize)
      && a.enabled == |WithStatus(list, Some(1))| && a.manual == |WithStatus(list, Some(2))|
      && a.auto == |WithStatus(list, Some(3))|
  {
    var a := AnswerFor(list, status, page, pageSize);
    PageIsStretch(WithStatus(list, status), a.page, a.pageSize);
    Tallies(list);
  }

  lemma PageIsStretch<T>(list: seq<T>, p: int, n: int)
    requires p >= 1 && n >= 1
    ensures PageOf(list, p, n) == Stretch(list, (p - 1) * n, n)
  {
    TimesIsProduct(p - 1, n);
  }

  /** The number of pages is the least that fits all entries, at least 1. */
  lemma PageCountExact(total: nat, n: int)
    requires n >= 1
    ensures var t := PageCount(total, n); t >= 1 && t * n >= total && (t > 1 ==> (t - 1) * n < total)
  {
    EnoughPages(total, n);
    FewestPages(total, n);
    TimesIsProduct(PageCount(total, n), n);
  }

  lemma Tallies(list: seq<KeyStatus>)
    ensures |WithStatus(list, Some(1))| == Tally(list, 1) && |WithStatus(list, Some(2))| == Tally(list, 2)
    ensures |WithStatus(list, Some(3))| == Tally(list, 3)
  {
    var x := KeyStatus(0, 0, 0, "", "");
    WithStatusExact(list, Some(1), x);
    WithStatusExact(list, Some(2), x);
    WithStatusExact(list, Some(3), x);
  }

  /** Up to n entries from the given one on. */
  function Stretch<T>(list: seq<T>, start: int, n: int): seq<T> {
    if 0 <= start < |list| && n >= 0 then list[start..if start + n < |list| then start + n else |list|] else []
  }

  lemma FewestPages(total: nat, n: int)
    requires n >= 1
    ensures PageCount(total, n) > 1 ==> (PageCount(total, n) - 1) * n < total
  {
    var x := total + n - 1;
    assert x == (x / n) * n + x % n;
    assert (x / n - 1) * n == (x / n) * n - n;
  }

  // --------------------------------------------------------------- the request handler

  class Channel {
    const json: Json
    var row: Row

    constructor (row: Row, json: Json)
      ensures this.row == row && this.json == json
    {
      this.row := row;
      this.json := json;
    }

    static method Describe(now: Row, i: nat, key: string) returns (entry: KeyStatus)
      ensures entry == EntryFor(now, i, key)
    {
      var status := ENABLED;
      var disabledTime, reason := 0, "";
      if i in now.status {
        status := now.status[i];
      }
      if status != 1 {
        disabledTime := if i in now.time then now.time[i] else 0;
        reason := if i in now.reason then now.reason[i] else "";
      }
      var preview := key;
      if |preview| > 10 {
        preview := preview[..10] + "...";
      }
      entry := KeyStatus(i, status, disabledTime, reason, preview);
    }

    /** All entries, and how many of them have each status. */
    static method DescribeAll(now: Row, keys: seq<string>)
      returns (list: seq<KeyStatus>, enabled: nat, manual: nat, auto: nat)
      ensures |list| == |keys| && forall i :: 0 <= i < |list| ==> list[i] == EntryFor(now, i, keys[i])
      ensures enabled == Tally(list, ENABLED) && manual == Tally(list, MANUALLY_DISABLED)
      ensures auto == Tally(list, AUTO_DISABLED)
    {
      list, enabled, manual, auto := [], 0, 0, 0;
      for i := 0 to |keys|
        invariant |list| == i && forall j :: 0 <= j < i ==> list[j] == EntryFor(now, j, keys[j])
        invariant enabled == Tally(list, ENABLED) && manual == Tally(list, MANUALLY_DISABLED)
        invariant auto == Tally(list, AUTO_DISABLED)
      {
        var entry := Describe(now, i, keys[i]);
        if entry.status == 1 {
          enabled := enabled + 1;
        } else if entry.status == 2 {
          manual := manual + 1;
        } else if entry.status == 3 {
          auto := auto + 1;
        }
        var longer := list + [entry];
        assert longer[..|list|] == list;
        list := longer;
      }
    }

    static method Filter(list: seq<KeyStatus>, status: int) returns (shown: seq<KeyStatus>)
      ensures shown == WithStatus(list, Some(status))
    {
      shown := [];
      for i := 0 to |list|
        invariant shown == WithStatus(list[..i], Some(status))
      {
        assert list[..i + 1][..i] == list[..i];
        if list[i].status == status {
          shown := shown + [list[i]];
        }
      }
      assert list[..|list|] == list;
    }

    /** One page of the list, restricted to a status on request; page and size default to 1 and 50, and
        a page past the last is the last. */
    method GetKeyStatus(status: Option<int>, page: int, pageSize: int) returns (r: Answer)
      ensures r == AnswerFor(StatusList(row, json), status, page, pageSize)
    {
      var p, n := page, pageSize;
      if p <= 0 {
        p := 1;
      }
      if n <= 0 {
        n := 50;
      }
      var list, enabled, manual, auto := DescribeAll(row, Keys(row, json));
      assert list == StatusList(row, json);
      var shown := list;
      if status.Some? {
        shown := Filter(list, status.value);
      }
      var keys, at, pages := TakePage(shown, p, n);
      r := Answer(keys, |shown|, at, n, pages, enabled, manual, auto);
    }

    static method TakePage(shown: seq<KeyStatus>, asked: int, n: int)
      returns (keys: seq<KeyStatus>, page: int, totalPages: int)
      requires asked >= 1 && n >= 1
      ensures totalPages == PageCount(|shown|, n) && page == Min(asked, totalPages)
      ensures keys == PageOf(shown, page, n)
    {
      totalPages := (|shown| + n - 1) / n;
      if totalPages == 0 {
        totalPages := 1;
      }
      page := asked;
      if page > totalPages {
        page := totalPages;
      }
      var start := (page - 1) * n;
      TimesIsProduct(page - 1, n);
      var end := start + n;
      if end > |shown| {
        end := |shown|;
      }
      keys := [];
      if start < |shown| {
        keys := shown[start..end];
      }
    }

    method Disable(index: Option<int>) returns (ok: bool)
      modifies this
      ensures (ok, row) == Perform(old(row), DisableKey(index), json)
    {
      if index.None? || index.value < 0 || index.value >= row.size {
        return false;
      }
      row := Update(row, row.(status := row.status[index.value := 2]), json);
      ok := true;
    }

    method Enable(index: Option<int>) returns (ok: bool)
      modifies this
      ensures (ok, row) == Perform(old(row), EnableKey(index), json)
    {
      if index.None? || index.value < 0 || index.value >= row.size {
        return false;
      }
      var next := row.(status := row.status - {index.value});
      next := next.(time := next.time - {index.value});
      next := next.(reason := next.reason - {index.value});
      row := Update(row, next, json);
      ok := true;
    }

    method EnableAll() returns (ok: bool)
      modifies this
      ensures (ok, row) == Perform(old(row), EnableAllKeys, json)
    {
      row := Update(row, row.(status := map[], time := map[], reason := map[]), json);
      ok := true;
    }

    method DisableAll() returns (ok: bool)
      modifies this
      ensures (ok, row) == Perform(old(row), DisableAllKeys, json)
    {
      var status, disabledCount := DisableEnabled(row);
      if disabledCount == 0 {
        return false;
      }
      row := Update(row, row.(status := status), json);
      ok := true;
    }

    static method DisableEnabled(now: Row) returns (status: map<int, int>, disabledCount: nat)
      ensures status == now.status + NowDisabled(now)
      ensures disabledCount == 0 <==> NowDisabled(now) == map[]
    {
      status, disabledCount := now.status, 0;
      ghost var added: map<int, int> := map[];
      var i := 0;
      while i < now.size
        invariant 0 <= i && (i <= now.size || i == 0)
        invariant status == now.status + added
        invariant added == map j: int | 0 <= j < i && StatusOf(now.status, j) == ENABLED :: MANUALLY_DISABLED
        invariant disabledCount == 0 <==> added == map[]
      {
        var s := if i in status then status[i] else 1;
        if s == 1 {
          status := status[i := 2];
          added := added[i := 2];
          disabledCount := disabledCount + 1;
        }
        i := i + 1;
      }
      assert added == NowDisabled(now);
    }

    /** Copies the entry of surviving key i to its new index, if wanted and present. */
    static method Carry<T>(from: map<int, T>, wanted: bool, i: nat, newIndex: nat, built: map<int, T>,
                           ghost at: seq<nat>, ghost keep: set<int>) returns (next: map<int, T>)
      requires newIndex == |at| && built == Reindexed(from, at, keep)
      requires i in from ==> (wanted <==> i in keep)
      ensures next == Reindexed(from, at + [i], keep)
    {
      next := built;
      ReindexedGrows(from, at, i, keep);
      if wanted && i in from {
        next := next[newIndex := from[i]];
      }
    }

    static method NoKeys(now: Row, keys: seq<string>, ghost keepStatus: set<int>, ghost keepTime: set<int>)
      returns (none: Carried)
      ensures none == CarriedAt(now, keys, [], keepStatus, keepTime)
    {
      none := Carried([], map[], map[], map[]);
    }

    /** Moves the surviving key i, with its entries, to the end of the rebuilt list. */
    static method Keep(now: Row, keys: seq<string>, i: nat, withStatus: bool, withTime: bool, built: Carried,
                       ghost at: seq<nat>, ghost keepStatus: set<int>, ghost keepTime: set<int>)
      returns (next: Carried)
      requires i < |keys| && forall j :: 0 <= j < |at| ==> at[j] < |keys|
      requires built == CarriedAt(now, keys, at, keepStatus, keepTime)
      requires i in now.status ==> (withStatus <==> i in keepStatus)
      requires i in now.time || i in now.reason ==> (withTime <==> i in keepTime)
      ensures forall j :: 0 <= j < |at + [i]| ==> (at + [i])[j] < |keys|
      ensures next == CarriedAt(now, keys, at + [i], keepStatus, keepTime)
    {
      var newIndex := |built.keys|;
      PickGrows(keys, at, i);
      var status := Carry(now.status, withStatus, i, newIndex, built.status, at, keepStatus);
      var time := Carry(now.time, withTime, i, newIndex, built.time, at, keepTime);
      var reason := Carry(now.reason, withTime, i, newIndex, built.reason, at, keepTime);
      next := Carried(built.keys + [keys[i]], status, time, reason);
    }

    /** The rebuilding loop of delete_key. */
    static method RebuildWithout(now: Row, keys: seq<string>, gone: int,
                                 ghost out: set<int>, ghost all: set<int>, ghost keep: set<int>) returns (next: Row)
      requires forall i :: i in out <==> i == gone
      requires forall i :: i in now.time || i in now.reason ==> i in all
      requires forall i :: i in keep <==> StatusOf(now.status, i) != ENABLED
      ensures next == Rebuilt(now, keys, out, keep, all)
    {
      var rest := NoKeys(now, keys, keep, all);
      for i := 0 to |keys|
        invariant rest == CarriedAt(now, keys, Survivors(i, out), keep, all)
      {
        if i != gone {
          rest := Keep(now, keys, i, StatusOf(now.status, i) != 1, true, rest, Survivors(i, out), keep, all);
        }
      }
      next := Row(Text.Join(rest.keys, '\n'), |rest.keys|, rest.status, rest.time, rest.reason);
    }

    method Delete(index: Option<int>) returns (ok: bool)
      modifies this
      ensures (ok, row) == Perform(old(row), DeleteKey(index), json)
    {
      if index.None? || index.value < 0 || index.value >= row.size {
        return false;
      }
      var next := RebuildWithout(row, Keys(row, json), index.value,
                                 {index.value}, AllIndices(row), NotEnabled(row.status));
      if next.size == 0 {
        return false;
      }
      row := Update(row, next, json);
      ok := true;
    }

    static method KeepUnlessDisabled(now: Row, keys: seq<string>, i: nat, built: Carried, count: int,
                                     ghost gone: set<int>, ghost keep: set<int>)
      returns (next: Carried, deletedCount: int)
      requires i < |keys| && built == CarriedAt(now, keys, Survivors(i, gone), keep, keep)
      requires i in gone <==> StatusOf(now.status, i) == AUTO_DISABLED
      requires i in keep <==> StatusOf(now.status, i) != ENABLED
      ensures next == CarriedAt(now, keys, Survivors(i + 1, gone), keep, keep)
      ensures |Survivors(i + 1, gone)| + deletedCount == |Survivors(i, gone)| + 1 + count
    {
      next, deletedCount := built, count;
      var s := StatusOf(now.status, i);
      if s == 3 {
        deletedCount := deletedCount + 1;
      } else {
        next := Keep(now, keys, i, s != 1, s != 1, built, Survivors(i, gone), keep, keep);
      }
    }

    /** The rebuilding loop of delete_disabled_keys. */
    static method RebuildEnabled(now: Row, keys: seq<string>, ghost gone: set<int>, ghost keep: set<int>)
      returns (next: Row, deletedCount: int)
      requires forall i :: i in gone <==> StatusOf(now.status, i) == AUTO_DISABLED
      requires forall i :: i in keep <==> StatusOf(now.status, i) != ENABLED
      ensures next == Rebuilt(now, keys, gone, keep, keep)
      ensures deletedCount == |keys| - |Survivors(|keys|, gone)|
    {
      deletedCount := 0;
      var rest := NoKeys(now, keys, keep, keep);
      for i := 0 to |keys|
        invariant |Survivors(i, gone)| == i - deletedCount
        invariant rest == CarriedAt(now, keys, Survivors(i, gone), keep, keep)
      {
        rest, deletedCount := KeepUnlessDisabled(now, keys, i, rest, deletedCount, gone, keep);
      }
      next := Row(Text.Join(rest.keys, '\n'), |rest.keys|, rest.status, rest.time, rest.reason);
    }

    method DeleteDisabled() returns (ok: bool)
      modifies this
      ensures (ok, row) == Perform(old(row), DeleteDisabledKeys, json)
    {
      var next, deletedCount := RebuildEnabled(row, Keys(row, json), AutoDisabled(row), NotEnabled(row.status));
      if deletedCount == 0 {
        return false;
      }
      row := Update(row, next, json);
      ok := true;
    }
  }

  lemma ReindexedGrows<T>(m: map<int, T>, at: seq<nat>, i: nat, keep: set<int>)
    ensures Reindexed(m, at + [i], keep) ==
            if i in m && i in keep then Reindexed(m, at, keep)[|at| := m[i]] else Reindexed(m, at, keep)
  {
  }

  // -------------------------------------------------------------- switching keys

  function RecordedTime(row: Row, i: int): int {
    if i in row.time then row.time[i] else 0
  }

  function RecordedReason(row: Row, i: int): string {
    if i in row.reason then row.reason[i] else ""
  }

  /** How a key is listed: a key without recorded status is enabled, time and reason are shown unless it is
      enabled, and of a key longer than ten characters only the first ten are. */
  lemma EntryShows(row: Row, json: Json, i: nat)
    requires i < |Keys(row, json)|
    ensures
      var e, key := StatusList(row, json)[i], Keys(row, json)[i];
      && e.index == i && e.status == (if i in row.status then row.status[i] else 1)
      && (e.status == 1 ==> e.disabledTime == 0 && e.reason == "")
      && (e.status != 1 ==> e.disabledTime == RecordedTime(row, i) && e.reason == RecordedReason(row, i))
      && (|key| <= 10 ==> e.preview == key) && (|key| > 10 ==> e.preview == key[..10] + "...")
  {
  }

  /** Entry i as it is once the key is switched off by hand, and once it is switched on. */
  function SwitchedOff(row: Row, e: KeyStatus): KeyStatus {
    KeyStatus(e.index, 2, RecordedTime(row, e.index), RecordedReason(row, e.index), e.preview)
  }

  function SwitchedOn(e: KeyStatus): KeyStatus {
    KeyStatus(e.index, 1, 0, "", e.preview)
  }

  /** The key text is counted right, as it is when stored in bounds. */
  ghost predicate Settled(row: Row, json: Json) {
    InBounds(row, json) && Count(row.key, json) == |Keys(row, json)|
  }

  lemma StoredSwitch(row: Row, next: Row, json: Json)
    requires Settled(row, json) && next.key == row.key && Below(next.status, row.size)
    ensures Update(row, next, json) == next.(size := row.size)
  {
    assert next.status == map i | i in next.status && i < row.size :: next.status[i];
  }

  lemma SameList(a: seq<KeyStatus>, b: seq<KeyStatus>)
    requires |a| == |b| && forall j :: 0 <= j < |a| ==> a[j] == b[j]
    ensures a == b
  {
  }

  /** disable_key changes entry i and nothing else; out of range, or without an index, nothing. */
  lemma DisableEffect(row: Row, i: Option<int>, json: Json)
    requires Settled(row, json)
    ensures
      var (ok, after) := Perform(row, DisableKey(i), json);
      var list := StatusList(row, json);
      if i.Some? && 0 <= i.value < |Keys(row, json)| then
        && ok && Keys(after, json) == Keys(row, json)
        && StatusList(after, json) == list[i.value := SwitchedOff(row, list[i.value])]
      else !ok && after == row
  {
    if InRange(row, i) {
      var next := Disabled(row, i.value);
      StoredSwitch(row, next, json);
      SameList(StatusList(Update(row, next, json), json),
               StatusList(row, json)[i.value := SwitchedOff(row, StatusList(row, json)[i.value])]);
    }
  }

  /** enable_key changes entry i and nothing else. */
  lemma EnableEffect(row: Row, i: Option<int>, json: Json)
    requires Settled(row, json)
    ensures
      var (ok, after) := Perform(row, EnableKey(i), json);
      var list := StatusList(row, json);
      if i.Some? && 0 <= i.value < |Keys(row, json)| then
        && ok && Keys(after, json) == Keys(row, json)
        && StatusList(after, json) == list[i.value := SwitchedOn(list[i.value])]
        && i.value !in after.time && i.value !in after.reason
      else !ok && after == row
  {
    if InRange(row, i) {
      var next := Enabled(row, i.value);
      StoredSwitch(row, next, json);
      SameList(StatusList(Update(row, next, json), json),
               StatusList(row, json)[i.value := SwitchedOn(StatusList(row, json)[i.value])]);
    }
  }

  /** enable_all_keys switches every key on and forgets all times and reasons. */
  lemma EnableAllEffect(row: Row, json: Json)
    requires Settled(row, json)
    ensures
      var (ok, after) := Perform(row, EnableAllKeys, json);
      && ok && Keys(after, json) == Keys(row, json) && after.time == map[] && after.reason == map[]
      && forall j :: 0 <= j < |Keys(row, json)| ==> StatusList(after, json)[j] == SwitchedOn(StatusList(row, json)[j])
  {
    StoredSwitch(row, row.(status := map[], time := map[], reason := map[]), json);
  }

  /** disable_all_keys switches off exactly the keys that are on, and fails if there are none. */
  lemma DisableAllEffect(row: Row, json: Json)
    requires Settled(row, json)
    ensures
      var (ok, after) := Perform(row, DisableAllKeys, json);
      var list := StatusList(row, json);
      && (ok <==> exists j :: 0 <= j < |list| && list[j].status == 1)
      && (!ok ==> after == row)
      && Keys(after, json) == Keys(row, json)
      && forall j :: 0 <= j < |list| ==>
           StatusList(after, json)[j] == if list[j].status == 1 then SwitchedOff(row, list[j]) else list[j]
  {
    var list := StatusList(row, json);
    if NowDisabled(row) == map[] {
      assert forall j :: 0 <= j < |list| && list[j].status == 1 ==> j in NowDisabled(row);
    } else {
      var j :| j in NowDisabled(row);
      assert list[j].status == 1;
      StoredSwitch(row, row.(status := row.status + NowDisabled(row)), json);
    }
  }

  /** What the relay records for a key that is not enabled is what the list then shows. */
  lemma MarkedShown(row: Row, i: nat, status: int, time: int, reason: string, json: Json)
    requires InBounds(row, json) && i < |Keys(row, json)| && status != 1
    ensures
      var mark := Marked(row.status[i := status], row.time[i := time], row.reason[i := reason]);
      var list := StatusList(row, json);
      StatusList(Step(row, mark, json), json) == list[i := KeyStatus(i, status, time, reason, list[i].preview)]
  {
    var mark := Marked(row.status[i := status], row.time[i := time], row.reason[i := reason]);
    MarkStored(row, mark, json);
    var list := StatusList(row, json);
    SameList(StatusList(Step(row, mark, json), json),
             list[i := KeyStatus(i, status, time, reason, list[i].preview)]);
  }

  lemma MarkStored(row: Row, mark: Event, json: Json)
    requires mark.Marked? && Below(mark.status, row.size) && Below(mark.time, row.size) && Below(mark.reason, row.size)
    ensures Step(row, mark, json) == row.(status := mark.status, time := mark.time, reason := mark.reason)
  {
  }

  // ----------------------------------------------------------------- deleting keys

  /** The brackets of an array belong to none of its items, so its text is longer than the items put on
      one line each. */
  ghost predicate Bracketed(json: Json) {
    forall text :: json(text).Some? ==> |Text.Join(json(text).value, '\n')| < |text|
  }

  /** The earlier list with the entries of `gone` filtered out and indices renumbered. */
  function Filtered(row: Row, gone: set<int>, json: Json): (r: seq<KeyStatus>)
    ensures |r| == |Survivors(|Keys(row, json)|, gone)|
  {
    var at := Survivors(|Keys(row, json)|, gone);
    seq(|at|, j requires 0 <= j < |at| => StatusList(row, json)[at[j]].(index := j))
  }

  /** Keys and status list have lost exactly the keys of `gone`. */
  ghost predicate Loses(row: Row, gone: set<int>, after: Row, json: Json) {
    Keys(after, json) == Rest(Keys(row, json), gone) && StatusList(after, json) == Filtered(row, gone, json)
  }

  /** These keys can be read back from one line each: there are some, none holds a line end, neither the
      first nor the last is empty, and together they do not happen to be a JSON array. */
  ghost predicate Readable(keys: seq<string>, json: Json) {
    && keys != [] && Text.Clean(keys, '\n')
    && keys[0] != "" && keys[|keys| - 1] != ""
    && Items(Text.Join(keys, '\n'), json).None?
  }

  lemma ReadBack(keys: seq<string>, json: Json)
    requires Readable(keys, json)
    ensures Read(Text.Join(keys, '\n'), json) == keys
    ensures Count(Text.Join(keys, '\n'), json) == |keys| && Text.Join(keys, '\n') != ""
  {
    Text.RoundTrip(keys, '\n');
    Text.JoinEnds(keys, '\n');
  }

  lemma NotReadBack(keys: seq<string>, json: Json)
    requires Bracketed(json) && !Readable(keys, json) && Text.Join(keys, '\n') != ""
    ensures Read(Text.Join(keys, '\n'), json) != keys
  {
    var text := Text.Join(keys, '\n');
    Text.RoundTrip(keys, '\n');
    if Items(text, json).Some? {
      assert |Text.Join(Items(text, json).value, '\n')| < |Text.Trim(text)| <= |text|;
    }
  }

  lemma UpdateKeeps(row: Row, next: Row, json: Json)
    requires next.key != "" && next.size == Count(next.key, json)
    requires forall i :: i in next.status ==> i < next.size
    ensures Update(row, next, json) == next
  {
    assert next.status == map i | i in next.status && i < next.size :: next.status[i];
  }

  /** Whatever entries a row had: stored, those at or beyond the number of keys counted are gone, and no
      others. Times and reasons stay as they are. */
  lemma UpdateCuts(row: Row, next: Row, json: Json, i: int)
    ensures
      var u := Update(row, next, json);
      && u.key == (if next.key == "" then row.key else next.key) && u.size == Count(u.key, json)
      && (i in u.status <==> i in next.status && i < u.size) && (i in u.status ==> u.status[i] == next.status[i])
      && u.time == next.time && u.reason == next.reason
  {
  }

  lemma KeysAfterDelete(row: Row, gone: set<int>, keepTime: set<int>, json: Json)
    requires Readable(Rest(Keys(row, json), gone), json)
    ensures Keys(Update(row, Without(row, gone, keepTime, json), json), json) == Rest(Keys(row, json), gone)
    ensures Update(row, Without(row, gone, keepTime, json), json) == Without(row, gone, keepTime, json)
  {
    ReadBack(Rest(Keys(row, json), gone), json);
    UpdateKeeps(row, Without(row, gone, keepTime, json), json);
  }

  lemma {:induction false} SomeGone(n: nat, gone: set<int>, i: int)
    requires 0 <= i < n && i in gone
    ensures |Survivors(n, gone)| < n
  {
    if i < n - 1 {
      SomeGone(n - 1, gone, i);
    }
  }

  lemma KeysDiffer(row: Row, gone: set<int>, keepTime: set<int>, json: Json)
    requires Bracketed(json) && |Rest(Keys(row, json), gone)| < |Keys(row, json)|
    requires !Readable(Rest(Keys(row, json), gone), json)
    ensures Keys(Update(row, Without(row, gone, keepTime, json), json), json) != Rest(Keys(row, json), gone)
  {
    var rest := Rest(Keys(row, json), gone);
    if Text.Join(rest, '\n') != "" {
      NotReadBack(rest, json);
    }
  }

  lemma EntryMoves(row: Row, gone: set<int>, keepTime: set<int>, json: Json, j: nat)
    requires NotEnabled(row.status) <= keepTime
    requires j < |Survivors(|Keys(row, json)|, gone)|
    ensures
      var i := Survivors(|Keys(row, json)|, gone)[j];
      var key := Keys(row, json)[i];
      EntryFor(Without(row, gone, keepTime, json), j, key) == EntryFor(row, i, key).(index := j)
  {
    var i := Survivors(|Keys(row, json)|, gone)[j];
    var next := Without(row, gone, keepTime, json);
    assert StatusOf(next.status, j) == StatusOf(row.status, i);
  }

  /** Deleting any nonempty choice of keys leaves the keys and the status list equal to the earlier ones
      with exactly those keys filtered out and renumbered, if and only if the rest is readable. */
  lemma DeleteFilters(row: Row, gone: set<int>, keepTime: set<int>, json: Json)
    requires Bracketed(json) && NotEnabled(row.status) <= keepTime
    requires |Rest(Keys(row, json), gone)| < |Keys(row, json)|
    ensures Loses(row, gone, Update(row, Without(row, gone, keepTime, json), json), json)
            <==> Readable(Rest(Keys(row, json), gone), json)
  {
    if Readable(Rest(Keys(row, json), gone), json) {
      ReadableLoses(row, gone, keepTime, json);
    } else {
      KeysDiffer(row, gone, keepTime, json);
    }
  }

  lemma ReadableLoses(row: Row, gone: set<int>, keepTime: set<int>, json: Json)
    requires NotEnabled(row.status) <= keepTime && Readable(Rest(Keys(row, json), gone), json)
    ensures Loses(row, gone, Update(row, Without(row, gone, keepTime, json), json), json)
  {
    var at := Survivors(|Keys(row, json)|, gone);
    var after := Update(row, Without(row, gone, keepTime, json), json);
    KeysAfterDelete(row, gone, keepTime, json);
    forall j | 0 <= j < |at|
      ensures StatusList(after, json)[j] == Filtered(row, gone, json)[j]
    {
      EntryMoves(row, gone, keepTime, json, j);
    }
  }

  lemma {:induction false} AllButOne(n: nat, i: int)
    ensures |Survivors(n, {i})| == if 0 <= i < n then n - 1 else n
  {
    if n > 0 {
      AllButOne(n - 1, i);
    }
  }

  lemma SameTimes(row: Row, gone: set<int>, json: Json)
    ensures Without(row, gone, AllIndices(row), json)
            == Without(row, gone, AllIndices(row) + NotEnabled(row.status), json)
  {
    var at := Survivors(|Keys(row, json)|, gone);
    var more := AllIndices(row) + NotEnabled(row.status);
    assert Reindexed(row.time, at, AllIndices(row)) == Reindexed(row.time, at, more);
    assert Reindexed(row.reason, at, AllIndices(row)) == Reindexed(row.reason, at, more);
  }

  lemma OneGone(row: Row, i: int, json: Json)
    requires Bracketed(json) && 0 <= i < |Keys(row, json)|
    ensures Loses(row, {i}, Update(row, Without(row, {i}, AllIndices(row), json), json), json)
            <==> Readable(Rest(Keys(row, json), {i}), json)
  {
    AllButOne(|Keys(row, json)|, i);
    DeleteFilters(row, {i}, AllIndices(row) + NotEnabled(row.status), json);
    SameTimes(row, {i}, json);
  }

  /** delete_key, in range: the last key is refused; otherwise the channel loses exactly that key if and
      only if the rest is readable. */
  lemma DeleteKeyFilters(row: Row, i: int, json: Json)
    requires Bracketed(json) && row.size == |Keys(row, json)| && 0 <= i < row.size
    ensures var (ok, after) := Perform(row, DeleteKey(Some(i)), json);
            if row.size == 1 then !ok && after == row
            else ok && (Loses(row, {i}, after, json) <==> Readable(Rest(Keys(row, json), {i}), json))
  {
    PerformDeleteKey(row, i, json);
    OneGone(row, i, json);
  }

  lemma PerformDeleteKey(row: Row, i: int, json: Json)
    requires row.size == |Keys(row, json)| && 0 <= i < row.size
    ensures Perform(row, DeleteKey(Some(i)), json) ==
            if row.size == 1 then (false, row)
            else (true, Update(row, Without(row, {i}, AllIndices(row), json), json))
  {
    AllButOne(|Keys(row, json)|, i);
    var left := Survivors(|Keys(row, json)|, {i});
    assert left == [] <==> row.size == 1;
    assert InRange(row, Some(i));
  }

  /** delete_disabled_keys, when some key is automatically disabled: the channel loses exactly those if and
      only if the rest is readable. */
  lemma DeleteDisabledFilters(row: Row, i: int, json: Json)
    requires Bracketed(json) && 0 <= i < |Keys(row, json)| && i in AutoDisabled(row)
    ensures Perform(row, DeleteDisabledKeys, json).0
    ensures Loses(row, AutoDisabled(row), Perform(row, DeleteDisabledKeys, json).1, json)
            <==> Readable(Rest(Keys(row, json), AutoDisabled(row)), json)
  {
    SomeGone(|Keys(row, json)|, AutoDisabled(row), i);
    PerformDisabled(row, json);
    DeleteFilters(row, AutoDisabled(row), NotEnabled(row.status), json);
  }

  lemma PerformDisabled(row: Row, json: Json)
    requires |Rest(Keys(row, json), AutoDisabled(row))| < |Keys(row, json)|
    ensures Perform(row, DeleteDisabledKeys, json)
            == (true, Update(row, Without(row, AutoDisabled(row), NotEnabled(row.status), json), json))
  {
  }

  /** A line that is an array by itself: once the line before it is deleted, its items are the keys. */
  lemma ArrayAppears(row: Row, first: string, line: string, json: Json)
    requires InBounds(row, json) && Keys(row, json) == [first, line]
    requires line != "" && Items(line, json).Some?
    ensures Keys(Perform(row, DeleteKey(Some(0)), json).1, json) == Items(line, json).value
  {
    PerformDeleteKey(row, 0, json);
    assert Survivors(2, {0}) == [1];
    assert Rest([first, line], {0}) == [line];
  }

  /** An empty array holds no key, but storing the row counts at least one. */
  lemma EmptyArrayMiscounts(text: string, json: Json)
    requires Items(text, json) == Some([])
    ensures Read(text, json) == [] && Count(text, json) >= 1 && !Steady(text, json)
  {
  }

  /** When every key is automatically disabled, delete_disabled_keys reports success, but deletes
      none of them and leaves all of them enabled. */
  lemma DeletingAllEnablesAll(row: Row, json: Json)
    requires Keys(row, json) != [] && forall i :: 0 <= i < |Keys(row, json)| ==> i in AutoDisabled(row)
    ensures
      var (ok, after) := Perform(row, DeleteDisabledKeys, json);
      && ok && Keys(after, json) == Keys(row, json)
      && forall i :: 0 <= i < |Keys(row, json)| ==> StatusList(after, json)[i].status == ENABLED
  {
    NoneLeft(|Keys(row, json)|, AutoDisabled(row));
  }

  lemma {:induction false} NoneLeft(n: nat, gone: set<int>)
    requires forall i :: 0 <= i < n ==> i in gone
    ensures Survivors(n, gone) == []
  {
    if n > 0 {
      NoneLeft(n - 1, gone);
    }
  }

  lemma {:induction false} AllLeft(n: nat, gone: set<int>)
    requires forall i :: 0 <= i < n ==> i !in gone
    ensures |Survivors(n, gone)| == n && forall i :: 0 <= i < n ==> Survivors(n, gone)[i] == i
  {
    if n > 0 {
      AllLeft(n - 1, gone);
    }
  }

  lemma {:induction false} SameSurvivors(n: nat, gone: set<int>, other: set<int>)
    requires forall i :: 0 <= i < n ==> (i in gone <==> i in other)
    ensures Survivors(n, gone) == Survivors(n, other)
  {
    if n > 0 {
      SameSurvivors(n - 1, gone, other);
    }
  }

  // ------------------------------------------------------------------- whole runs

  ghost predicate Below<T>(m: map<int, T>, n: int) {
    forall i :: i in m ==> 0 <= i < n
  }

  /** The size is the number of keys, and every index is that of a key. */
  ghost predicate InBounds(row: Row, json: Json) {
    && row.size == |Keys(row, json)|
    && Below(row.status, row.size) && Below(row.time, row.size) && Below(row.reason, row.size)
  }

  /** A request, or what is recorded between two requests: other entries for keys there are. */
  datatype Event =
    | Managed(action: Action)
    | Marked(status: map<int, int>, time: map<int, int>, reason: map<int, string>)

  ghost function Step(row: Row, e: Event, json: Json): Row {
    match e
    case Managed(a) => Perform(row, a, json).1
    case Marked(s, t, r) =>
      if Below(s, row.size) && Below(t, row.size) && Below(r, row.size) then row.(status := s, time := t, reason := r)
      else row
  }

  ghost function After(row: Row, events: seq<Event>, json: Json): Row {
    if events == [] then row else Step(After(row, events[..|events| - 1], json), events[|events| - 1], json)
  }

  /** The key text stored when `gone` are deleted. */
  function Shortened(text: string, gone: set<int>, json: Json): string {
    var keys := Read(text, json);
    var t := Text.Join(Rest(keys, gone), '\n');
    if |Rest(keys, gone)| == |keys| || t == "" then text else t
  }

  function Cut(text: string, path: seq<set<int>>, json: Json): string {
    if path == [] then text else Shortened(Cut(text, path[..|path| - 1], json), path[|path| - 1], json)
  }

  /** The two ways of counting agree, and no deletion makes fewer keys readable than it leaves. */
  ghost predicate Steady(text: string, json: Json) {
    && Count(text, json) == |Read(text, json)|
    && forall gone: set<int> :: |Rest(Read(text, json), gone)| <= |Read(Shortened(text, gone, json), json)|
  }

  /** So it is for every text that deletions can lead to. */
  ghost predicate Robust(text: string, json: Json) {
    forall path: seq<set<int>> :: Steady(Cut(text, path, json), json)
  }

  // ..................................................... robust texts stay in bounds

  lemma DeleteKeyText(row: Row, gone: set<int>, keepTime: set<int>, json: Json)
    requires |Rest(Keys(row, json), gone)| < |Keys(row, json)|
    ensures Update(row, Without(row, gone, keepTime, json), json).key == Shortened(row.key, gone, json)
  {
  }

  lemma DeleteInBounds(row: Row, gone: set<int>, keepTime: set<int>, json: Json)
    requires |Rest(Keys(row, json), gone)| < |Keys(row, json)| && Steady(row.key, json)
    requires Steady(Shortened(row.key, gone, json), json)
    ensures InBounds(Update(row, Without(row, gone, keepTime, json), json), json)
  {
    DeleteKeyText(row, gone, keepTime, json);
    assert |Rest(Keys(row, json), gone)| <= |Read(Shortened(row.key, gone, json), json)|;
  }

  /** Which keys an event deletes. */
  function Gone(row: Row, e: Event, json: Json): set<int> {
    match e
    case Managed(DeleteKey(i)) => if i.Some? && Survivors(|Keys(row, json)|, {i.value}) != [] then {i.value} else {}
    case Managed(DeleteDisabledKeys) => AutoDisabled(row)
    case _ => {}
  }

  lemma NothingGone(text: string, json: Json)
    ensures Shortened(text, {}, json) == text
  {
    AllLeft(|Read(text, json)|, {});
  }

  lemma StepKey(row: Row, e: Event, json: Json)
    requires InBounds(row, json)
    ensures Step(row, e, json).key == Shortened(row.key, Gone(row, e, json), json)
  {
    NothingGone(row.key, json);
    if e.Managed? && e.action.DeleteKey? && e.action.index.Some? {
      AllButOne(|Keys(row, json)|, e.action.index.value);
    }
  }

  lemma StepInBounds(row: Row, e: Event, json: Json)
    requires InBounds(row, json) && Steady(row.key, json)
    requires Steady(Step(row, e, json).key, json)
    ensures InBounds(Step(row, e, json), json)
  {
    StepKey(row, e, json);
    if e.Managed? {
      match e.action
      case DeleteKey(i) =>
        if InRange(row, i) && row.size > 1 {
          PerformDeleteKey(row, i.value, json);
          AllButOne(|Keys(row, json)|, i.value);
          DeleteInBounds(row, {i.value}, AllIndices(row), json);
        } else if InRange(row, i) {
          PerformDeleteKey(row, i.value, json);
        }
      case DeleteDisabledKeys =>
        if |Survivors(|Keys(row, json)|, AutoDisabled(row))| < |Keys(row, json)| {
          PerformDisabled(row, json);
          DeleteInBounds(row, AutoDisabled(row), NotEnabled(row.status), json);
        }
      case a => SwitchInBounds(row, a, json);
    }
  }

  /** Switching keys on and off leaves the text alone. */
  lemma SwitchInBounds(row: Row, a: Action, json: Json)
    requires InBounds(row, json) && Steady(row.key, json)
    requires !a.DeleteKey? && !a.DeleteDisabledKeys?
    ensures InBounds(Perform(row, a, json).1, json)
  {
  }

  lemma CutLast(text: string, path: seq<set<int>>, gone: set<int>, json: Json)
    ensures Cut(text, path + [gone], json) == Shortened(Cut(text, path, json), gone, json)
  {
    assert (path + [gone])[..|path|] == path;
  }

  lemma Regroup<T>(first: T, xs: seq<T>, last: T)
    ensures [first] + (xs + [last]) == ([first] + xs) + [last]
  {
  }

  lemma {:induction false} CutFirst(text: string, gone: set<int>, path: seq<set<int>>, json: Json)
    ensures Cut(Shortened(text, gone, json), path, json) == Cut(text, [gone] + path, json)
    decreases |path|
  {
    if path == [] {
      CutLast(text, [], gone, json);
      assert [gone] + path == [] + [gone];
    } else {
      var before, last := path[..|path| - 1], path[|path| - 1];
      assert path == before + [last];
      CutFirst(text, gone, before, json);
      CutLast(Shortened(text, gone, json), before, last, json);
      CutLast(text, [gone] + before, last, json);
      Regroup(gone, before, last);
    }
  }

  lemma RobustShortened(text: string, gone: set<int>, json: Json)
    requires Robust(text, json)
    ensures Robust(Shortened(text, gone, json), json)
  {
    forall path: seq<set<int>>
      ensures Steady(Cut(Shortened(text, gone, json), path, json), json)
    {
      CutFirst(text, gone, path, json);
    }
  }

  lemma RobustSteady(text: string, json: Json)
    requires Robust(text, json)
    ensures Steady(text, json)
  {
    assert Cut(text, [], json) == text;
  }

  lemma {:induction false} RunInBounds(row: Row, events: seq<Event>, json: Json)
    requires InBounds(row, json) && Robust(row.key, json)
    ensures InBounds(After(row, events, json), json) && Robust(After(row, events, json).key, json)
    decreases |events|
  {
    if events != [] {
      var p := events[..|events| - 1];
      var e := events[|events| - 1];
      RunInBounds(row, p, json);
      var now := After(row, p, json);
      StepKey(now, e, json);
      RobustShortened(now.key, Gone(now, e, json), json);
      RobustSteady(now.key, json);
      RobustSteady(Step(now, e, json).key, json);
      StepInBounds(now, e, json);
    }
  }

  // ......................................................... other texts do not

  function Marks(n: nat, gone: set<int>): map<int, int> {
    map i | i in gone && 0 <= i < n :: AUTO_DISABLED
  }

  lemma MarksDelete(n: nat, gone: set<int>, marked: Row)
    requires forall i :: 0 <= i < n ==> (StatusOf(marked.status, i) == AUTO_DISABLED <==> i in gone)
    ensures Survivors(n, AutoDisabled(marked)) == Survivors(n, gone)
  {
    SameSurvivors(n, AutoDisabled(marked), gone);
  }

  /** The relay marks a choice of keys and they are deleted. */
  function Deletion(row: Row, gone: set<int>, json: Json): seq<Event> {
    [Marked(Marks(|Keys(row, json)|, gone), map[], map[]), Managed(DeleteDisabledKeys)]
  }

  lemma Both(row: Row, a: Event, b: Event, json: Json)
    ensures After(row, [a, b], json) == Step(Step(row, a, json), b, json)
  {
    assert [a, b][..1] == [a] && [a][..0] == [];
    assert After(row, [a], json) == Step(row, a, json);
  }

  lemma DeletionText(row: Row, gone: set<int>, json: Json)
    requires InBounds(row, json)
    ensures After(row, Deletion(row, gone, json), json).key == Shortened(row.key, gone, json)
  {
    var marks := Marks(|Keys(row, json)|, gone);
    Both(row, Marked(marks, map[], map[]), Managed(DeleteDisabledKeys), json);
    MarksBelow(row, gone, json);
    var marked := row.(status := marks, time := map[], reason := map[]);
    MarksDelete(|Keys(row, json)|, gone, marked);
    MarkedText(marked, gone, json);
  }

  lemma MarksBelow(row: Row, gone: set<int>, json: Json)
    requires InBounds(row, json)
    ensures
      var marks := Marks(|Keys(row, json)|, gone);
      Step(row, Marked(marks, map[], map[]), json) == row.(status := marks, time := map[], reason := map[])
  {
  }

  lemma MarkedText(marked: Row, gone: set<int>, json: Json)
    requires Survivors(|Keys(marked, json)|, AutoDisabled(marked)) == Survivors(|Keys(marked, json)|, gone)
    ensures Perform(marked, DeleteDisabledKeys, json).1.key == Shortened(marked.key, gone, json)
  {
    if |Rest(Keys(marked, json), gone)| < |Keys(marked, json)| {
      PerformDisabled(marked, json);
      DeleteKeyText(marked, AutoDisabled(marked), NotEnabled(marked.status), json);
    }
  }

  lemma {:induction false} AfterMore(row: Row, events: seq<Event>, more: seq<Event>, json: Json)
    ensures After(row, events + more, json) == After(After(row, events, json), more, json)
    decreases |more|
  {
    if more == [] {
      assert events + more == events;
    } else {
      AfterMore(row, events, more[..|more| - 1], json);
      assert (events + more)[..|events + more| - 1] == events + more[..|more| - 1];
    }
  }

  /** Some run leads to a text cut down along the path, unless it leaves the bounds before. */
  lemma {:induction false} Reach(row: Row, path: seq<set<int>>, json: Json) returns (events: seq<Event>)
    requires InBounds(row, json)
    ensures
      var after := After(row, events, json);
      InBounds(after, json) ==> after.key == Cut(row.key, path, json)
    decreases |path|
  {
    events := [];
    if path != [] {
      events := Reach(row, path[..|path| - 1], json);
      var now := After(row, events, json);
      if InBounds(now, json) {
        var gone := path[|path| - 1];
        DeletionText(now, gone, json);
        AfterMore(row, events, Deletion(now, gone, json), json);
        events := events + Deletion(now, gone, json);
      }
    }
  }

  lemma {:induction false} LastSurvivor(n: nat, gone: set<int>)
    requires Survivors(n, gone) != []
    ensures var at := Survivors(n, gone); at[|at| - 1] !in gone
  {
    if n - 1 in gone {
      LastSurvivor(n - 1, gone);
    }
  }

  /** The keys of `gone` automatically disabled, and the last of the others disabled with a reason. */
  function SpillStart(row: Row, gone: set<int>, last: int, json: Json): Row {
    row.(status := Marks(|Keys(row, json)|, gone)[last := MANUALLY_DISABLED], time := map[], reason := map[last := ""])
  }

  lemma SpillStartSets(row: Row, gone: set<int>, last: int, json: Json)
    requires 0 <= last < |Keys(row, json)| && last !in gone
    ensures
      var start := SpillStart(row, gone, last, json);
      && Survivors(|Keys(row, json)|, AutoDisabled(start)) == Survivors(|Keys(row, json)|, gone)
      && last in NotEnabled(start.status)
      && (InBounds(row, json) ==> Step(row, Marked(start.status, map[], map[last := ""]), json) == start)
  {
    var start := SpillStart(row, gone, last, json);
    MarksDelete(|Keys(row, json)|, gone, start);
  }

  lemma ReasonCarried(start: Row, gone: set<int>, keep: set<int>, json: Json, j: nat)
    requires
      var at := Survivors(|Keys(start, json)|, gone);
      j < |at| && at[j] in start.reason && at[j] in keep
    ensures j in Update(start, Without(start, gone, keep, json), json).reason
  {
  }

  lemma TooFar(row: Row, json: Json, j: int)
    requires j in row.reason && j >= |Keys(row, json)|
    ensures !InBounds(row, json)
  {
  }

  /** Deleting keys so that fewer can be read back than are left: the entry of the last one spills over. */
  lemma Spills(start: Row, gone: set<int>, keep: set<int>, json: Json)
    requires Shrinks(start.key, gone, json)
    requires
      var at := Survivors(|Keys(start, json)|, gone);
      at[|at| - 1] in start.reason && at[|at| - 1] in keep
    ensures !InBounds(Update(start, Without(start, gone, keep, json), json), json)
  {
    var last := |Survivors(|Keys(start, json)|, gone)| - 1;
    DeleteKeyText(start, gone, keep, json);
    ReasonCarried(start, gone, keep, json, last);
    TooFar(Update(start, Without(start, gone, keep, json), json), json, last);
  }

  /** Fewer keys are read back than `gone` leaves. */
  predicate Shrinks(text: string, gone: set<int>, json: Json) {
    |Read(Shortened(text, gone, json), json)| < |Rest(Read(text, json), gone)|
  }

  lemma SameShrinks(text: string, gone: set<int>, other: set<int>, json: Json)
    requires Survivors(|Read(text, json)|, gone) == Survivors(|Read(text, json)|, other)
    ensures Shrinks(text, gone, json) <==> Shrinks(text, other, json)
  {
    assert Rest(Read(text, json), gone) == Rest(Read(text, json), other);
  }

  /** The last key that is not automatically disabled is disabled by hand and has a reason. */
  predicate LastExplained(start: Row, json: Json) {
    var at := Survivors(|Keys(start, json)|, AutoDisabled(start));
    at != [] && at[|at| - 1] in start.reason && at[|at| - 1] in NotEnabled(start.status)
  }

  lemma SpillReady(row: Row, gone: set<int>, json: Json) returns (mark: Event)
    requires InBounds(row, json) && Shrinks(row.key, gone, json)
    ensures
      var start := Step(row, mark, json);
      Shrinks(start.key, AutoDisabled(start), json) && LastExplained(start, json)
  {
    var at := Survivors(|Keys(row, json)|, gone);
    var last := at[|at| - 1];
    LastSurvivor(|Keys(row, json)|, gone);
    var start := SpillStart(row, gone, last, json);
    SpillStartSets(row, gone, last, json);
    SameShrinks(row.key, gone, AutoDisabled(start), json);
    mark := Marked(start.status, map[], map[last := ""]);
  }

  lemma SpillRun(row: Row, gone: set<int>, json: Json) returns (events: seq<Event>)
    requires InBounds(row, json) && Shrinks(row.key, gone, json)
    ensures !InBounds(After(row, events, json), json)
  {
    var mark := SpillReady(row, gone, json);
    events := [mark, Managed(DeleteDisabledKeys)];
    Both(row, mark, Managed(DeleteDisabledKeys), json);
    DisabledSpills(Step(row, mark, json), json);
  }

  lemma DisabledSpills(start: Row, json: Json)
    requires Shrinks(start.key, AutoDisabled(start), json) && LastExplained(start, json)
    ensures !InBounds(Step(start, Managed(DeleteDisabledKeys), json), json)
  {
    PerformDisabled(start, json);
    Spills(start, AutoDisabled(start), NotEnabled(start.status), json);
  }

  lemma NotSteadyBreaks(row: Row, json: Json) returns (events: seq<Event>)
    requires InBounds(row, json) && !Steady(row.key, json)
    ensures !InBounds(After(row, events, json), json)
  {
    if Count(row.key, json) != |Read(row.key, json)| {
      events := [Managed(EnableAllKeys)];
      assert events[..0] == [];
    } else {
      var gone: set<int> :| |Rest(Read(row.key, json), gone)| > |Read(Shortened(row.key, gone, json), json)|;
      events := SpillRun(row, gone, json);
    }
  }

  lemma NotRobustBreaks(row: Row, json: Json) returns (events: seq<Event>)
    requires InBounds(row, json) && !Robust(row.key, json)
    ensures !InBounds(After(row, events, json), json)
  {
    var path: seq<set<int>> :| !Steady(Cut(row.key, path, json), json);
    events := Reach(row, path, json);
    var now := After(row, events, json);
    if InBounds(now, json) {
      var more := NotSteadyBreaks(now, json);
      AfterMore(row, events, more, json);
      events := events + more;
    }
  }

  /** Every run of requests, with anything recorded in between, keeps the size equal to the number of keys
      and all status, time and reason indices below it, if and only if the key text is robust. */
  lemma RunInBoundsIff(row: Row, json: Json)
    requires InBounds(row, json)
    ensures (forall events: seq<Event> :: InBounds(After(row, events, json), json)) <==> Robust(row.key, json)
  {
    if Robust(row.key, json) {
      forall events: seq<Event>
        ensures InBounds(After(row, events, json), json)
      {
        RunInBounds(row, events, json);
      }
    } else {
      var events := NotRobustBreaks(row, json);
      assert !InBounds(After(row, events, json), json);
    }
  }

  // ............................................................ checking a key text

  /** The same condition as a check that ends: try every choice of keys to delete, and go on with the
      shorter texts that come of it. */
  predicate Survives(text: string, json: Json)
    decreases |text|
  {
    && Count(text, json) == |Read(text, json)|
    && forall gone | gone <= First(|Read(text, json)|) ::
         var t := Shortened(text, gone, json);
         && |Rest(Read(text, json), gone)| <= |Read(t, json)|
         && (t == text || (|t| < |text| && Survives(t, json)))
  }

  function First(j: nat): (r: set<int>)
    ensures forall i :: i in r <==> 0 <= i < j
  {
    if j == 0 then {} else First(j - 1) + {j - 1}
  }

  lemma {:induction false} PickShorter(keys: seq<string>, gone: set<int>, n: nat)
    requires n <= |keys|
    ensures forall j :: 0 <= j < |Survivors(n, gone)| ==> Survivors(n, gone)[j] < |keys|
    ensures Text.Length(Pick(keys, Survivors(n, gone))) + n - |Survivors(n, gone)| <= Text.Length(keys[..n])
  {
    if n > 0 {
      PickShorter(keys, gone, n - 1);
      assert keys[..n][..n - 1] == keys[..n - 1];
      if n - 1 !in gone {
        var at := Survivors(n - 1, gone);
        PickGrows(keys, at, n - 1);
        var picked := Pick(keys, at + [n - 1]);
        assert picked[..|picked| - 1] == Pick(keys, at);
      }
    }
  }

  lemma RestShorter(keys: seq<string>, gone: set<int>)
    requires 0 < |Rest(keys, gone)| < |keys|
    ensures |Text.Join(Rest(keys, gone), '\n')| < |Text.Join(keys, '\n')|
  {
    PickShorter(keys, gone, |keys|);
    assert keys[..|keys|] == keys;
    Text.JoinLength(keys, '\n');
    Text.JoinLength(Rest(keys, gone), '\n');
  }

  lemma KeysFit(text: string, json: Json)
    requires Bracketed(json)
    ensures |Text.Join(Read(text, json), '\n')| <= |text|
  {
    if Items(text, json).Some? {
      assert |Text.Join(Items(text, json).value, '\n')| < |Text.Trim(text)| <= |text|;
    } else if text != "" {
      Text.JoinSplit(Text.Strip(text, '\n'), '\n');
      Text.StripShorter(text, '\n');
    }
  }

  /** Every deletion that changes the text shortens it. */
  lemma ShortenedShorter(text: string, gone: set<int>, json: Json)
    requires Bracketed(json)
    ensures Shortened(text, gone, json) == text || |Shortened(text, gone, json)| < |text|
  {
    var keys := Read(text, json);
    if 0 < |Rest(keys, gone)| < |keys| {
      RestShorter(keys, gone);
      KeysFit(text, json);
    }
  }

  lemma SameShortened(text: string, gone: set<int>, json: Json)
    ensures
      var some := gone * First(|Read(text, json)|);
      && Rest(Read(text, json), some) == Rest(Read(text, json), gone)
      && Shortened(text, some, json) == Shortened(text, gone, json)
  {
    SameSurvivors(|Read(text, json)|, gone * First(|Read(text, json)|), gone);
  }

  lemma SurvivesStep(text: string, gone: set<int>, json: Json)
    requires Survives(text, json)
    ensures Survives(Shortened(text, gone, json), json)
    ensures |Rest(Read(text, json), gone)| <= |Read(Shortened(text, gone, json), json)|
  {
    SameShortened(text, gone, json);
    assert gone * First(|Read(text, json)|) <= First(|Read(text, json)|);
  }

  lemma SurvivesSteady(text: string, json: Json)
    requires Survives(text, json)
    ensures Steady(text, json)
  {
    forall gone: set<int>
      ensures |Rest(Read(text, json), gone)| <= |Read(Shortened(text, gone, json), json)|
    {
      SurvivesStep(text, gone, json);
    }
  }

  lemma {:induction false} SurvivesCut(text: string, path: seq<set<int>>, json: Json)
    requires Survives(text, json)
    ensures Survives(Cut(text, path, json), json)
    decreases |path|
  {
    if path != [] {
      SurvivesCut(text, path[..|path| - 1], json);
      SurvivesStep(Cut(text, path[..|path| - 1], json), path[|path| - 1], json);
    }
  }

  lemma {:induction false} RobustSurvives(text: string, json: Json)
    requires Bracketed(json) && Robust(text, json)
    ensures Survives(text, json)
    decreases |text|
  {
    RobustSteady(text, json);
    forall gone: set<int> | gone <= First(|Read(text, json)|)
      ensures
        var t := Shortened(text, gone, json);
        && |Rest(Read(text, json), gone)| <= |Read(t, json)|
        && (t == text || (|t| < |text| && Survives(t, json)))
    {
      ShortenedShorter(text, gone, json);
      RobustShortened(text, gone, json);
      if Shortened(text, gone, json) != text {
        RobustSurvives(Shortened(text, gone, json), json);
      }
    }
  }

  /** A key text is robust if and only if it passes that check. */
  lemma RobustIff(text: string, json: Json)
    requires Bracketed(json)
    ensures Robust(text, json) <==> Survives(text, json)
  {
    if Survives(text, json) {
      forall path: seq<set<int>>
        ensures Steady(Cut(text, path, json), json)
      {
        SurvivesCut(text, path, json);
        SurvivesSteady(Cut(text, path, json), json);
      }
    } else if Robust(text, json) {
      RobustSurvives(text, json);
    }
  }

  // .............................................................. plain keys

  /** At most one key, or several of which none is empty, holds a line end or starts like an array. */
  ghost predicate Plain(text: string, json: Json) {
    && Count(text, json) == |Read(text, json)|
    && (|Read(text, json)| > 1 ==> PlainKeys(Read(text, json)))
  }

  ghost predicate PlainKeys(keys: seq<string>) {
    forall i :: 0 <= i < |keys| ==> keys[i] != "" && '\n' !in keys[i] && !LooksLikeArray(keys[i])
  }

  lemma PlainReadable(keys: seq<string>, json: Json)
    requires PlainKeys(keys) && keys != []
    ensures Readable(keys, json)
  {
    Text.JoinLeading(keys, '\n', '[');
  }

  lemma PlainRest(text: string, gone: set<int>, json: Json)
    requires Plain(text, json)
    requires 0 < |Rest(Read(text, json), gone)| < |Read(text, json)|
    ensures Readable(Rest(Read(text, json), gone), json)
    ensures Read(Shortened(text, gone, json), json) == Rest(Read(text, json), gone)
    ensures Plain(Shortened(text, gone, json), json)
  {
    var rest := Rest(Read(text, json), gone);
    PlainReadable(rest, json);
    ReadBack(rest, json);
  }

  lemma PlainShortened(text: string, gone: set<int>, json: Json)
    requires Plain(text, json)
    ensures Plain(Shortened(text, gone, json), json)
    ensures |Rest(Read(text, json), gone)| <= |Read(Shortened(text, gone, json), json)|
  {
    if 0 < |Rest(Read(text, json), gone)| < |Read(text, json)| {
      PlainRest(text, gone, json);
    }
  }

  lemma {:induction false} PlainCut(text: string, path: seq<set<int>>, json: Json)
    requires Plain(text, json)
    ensures Plain(Cut(text, path, json), json)
    decreases |path|
  {
    if path != [] {
      PlainCut(text, path[..|path| - 1], json);
      PlainShortened(Cut(text, path[..|path| - 1], json), path[|path| - 1], json);
    }
  }

  lemma PlainSteady(text: string, json: Json)
    requires Plain(text, json)
    ensures Steady(text, json)
  {
    forall gone: set<int>
      ensures |Rest(Read(text, json), gone)| <= |Read(Shortened(text, gone, json), json)|
    {
      PlainShortened(text, gone, json);
    }
  }

  /** Plain key texts are robust. */
  lemma PlainRobust(text: string, json: Json)
    requires Plain(text, json)
    ensures Robust(text, json)
  {
    forall path: seq<set<int>>
      ensures Steady(Cut(text, path, json), json)
    {
      PlainCut(text, path, json);
      PlainSteady(Cut(text, path, json), json);
    }
  }

  lemma {:induction false} RunPlain(row: Row, events: seq<Event>, json: Json)
    requires InBounds(row, json) && Plain(row.key, json)
    ensures InBounds(After(row, events, json), json) && Plain(After(row, events, json).key, json)
    decreases |events|
  {
    PlainRobust(row.key, json);
    RunInBounds(row, events, json);
    if events != [] {
      var p := events[..|events| - 1];
      var e := events[|events| - 1];
      RunPlain(row, p, json);
      var now := After(row, p, json);
      StepKey(now, e, json);
      PlainShortened(now.key, Gone(now, e, json), json);
    }
  }

  lemma {:induction false} SurvivorsFrom(n: nat, gone: set<int>, j: nat)
    requires j < n && forall i :: 0 <= i < n ==> (i in gone <==> i < j)
    ensures var at := Survivors(n, gone); |at| == n - j && at[0] == j
  {
    if j == n - 1 {
      NoneLeft(n - 1, gone);
    } else {
      SurvivorsFrom(n - 1, gone, j);
    }
  }

  /** Lines that do not start like arrays. */
  ghost predicate Lines(text: string, json: Json) {
    && Items(text, json).None?
    && forall i :: 0 <= i < |Read(text, json)| ==> !LooksLikeArray(Read(text, json)[i])
  }

  lemma LinesClean(text: string, json: Json)
    requires Lines(text, json)
    ensures Text.Clean(Read(text, json), '\n')
  {
    if text != "" {
      Text.SplitClean(Text.Strip(text, '\n'), '\n');
    }
  }

  lemma EmptyLineUnsteady(text: string, json: Json, j: nat)
    requires Lines(text, json) && |Read(text, json)| > 1 && j < |Read(text, json)| && Read(text, json)[j] == ""
    ensures !Steady(text, json)
  {
    var keys := Read(text, json);
    Text.ParsedEnds(text, '\n');
    LinesClean(text, json);
    var gone := First(j);
    SurvivorsFrom(|keys|, gone, j);
    EmptyHead(keys, gone, json);
    assert |Rest(keys, gone)| > |Read(Shortened(text, gone, json), json)|;
  }

  lemma EmptyHead(keys: seq<string>, gone: set<int>, json: Json)
    requires Text.Clean(keys, '\n') && forall i :: 0 <= i < |keys| ==> !LooksLikeArray(keys[i])
    requires |Rest(keys, gone)| > 1 && Rest(keys, gone)[0] == ""
    ensures Text.Join(Rest(keys, gone), '\n') != ""
    ensures |Read(Text.Join(Rest(keys, gone), '\n'), json)| < |Rest(keys, gone)|
  {
    var rest := Rest(keys, gone);
    Text.JoinLeading(rest, '\n', '[');
    Text.ReadBackShorter(rest, '\n');
  }

  /** For keys on lines that do not start like arrays the condition is this: there is at most one key, or
      none is the empty text. */
  lemma LinesRobustIff(text: string, json: Json)
    requires Lines(text, json)
    ensures Robust(text, json) <==>
            |Read(text, json)| <= 1 || forall i :: 0 <= i < |Read(text, json)| ==> Read(text, json)[i] != ""
  {
    LinesClean(text, json);
    if j: nat :| j < |Read(text, json)| && Read(text, json)[j] == "" && |Read(text, json)| > 1 {
      EmptyLineUnsteady(text, json, j);
      assert Cut(text, [], json) == text;
    } else {
      PlainRobust(text, json);
    }
  }

  /** After any run of such a channel, deleting one of several keys loses exactly that key. */
  lemma PlainDeleteKey(row: Row, events: seq<Event>, i: int, json: Json)
    requires Bracketed(json) && InBounds(row, json) && Plain(row.key, json)
    requires 0 <= i < |Keys(After(row, events, json), json)| && |Keys(After(row, events, json), json)| > 1
    ensures
      var now := After(row, events, json);
      Loses(now, {i}, Perform(now, DeleteKey(Some(i)), json).1, json)
  {
    RunPlain(row, events, json);
    var now := After(row, events, json);
    AllButOne(|Keys(now, json)|, i);
    PlainRest(now.key, {i}, json);
    DeleteKeyFilters(now, i, json);
  }

  lemma LosesNothing(row: Row, gone: set<int>, json: Json)
    requires forall i :: 0 <= i < |Keys(row, json)| ==> i !in gone
    ensures Loses(row, gone, row, json) && |Rest(Keys(row, json), gone)| == |Keys(row, json)|
  {
    AllLeft(|Keys(row, json)|, gone);
  }

  /** And delete_disabled_keys loses exactly the automatically disabled keys, if and only if there is no
      key at all or some key is not one of them. */
  lemma PlainDeleteDisabledIff(row: Row, events: seq<Event>, json: Json)
    requires Bracketed(json) && InBounds(row, json) && Plain(row.key, json)
    ensures
      var now := After(row, events, json);
      Loses(now, AutoDisabled(now), Perform(now, DeleteDisabledKeys, json).1, json) <==>
      Keys(now, json) == [] || exists i :: 0 <= i < |Keys(now, json)| && i !in AutoDisabled(now)
  {
    RunPlain(row, events, json);
    DisabledIff(After(row, events, json), json);
  }

  lemma DisabledIff(now: Row, json: Json)
    requires Bracketed(json) && Plain(now.key, json)
    ensures Loses(now, AutoDisabled(now), Perform(now, DeleteDisabledKeys, json).1, json) <==>
            Keys(now, json) == [] || exists i :: 0 <= i < |Keys(now, json)| && i !in AutoDisabled(now)
  {
    var gone := AutoDisabled(now);
    var n := |Keys(now, json)|;
    if i :| 0 <= i < n && i in gone {
      SomeGone(n, gone, i);
      DeleteDisabledFilters(now, i, json);
      if j :| 0 <= j < n && j !in gone {
        SurvivorsExact(n, gone, j);
        PlainRest(now.key, gone, json);
      } else {
        NoneLeft(n, gone);
      }
    } else {
      LosesNothing(now, gone, json);
      assert n > 0 ==> 0 !in gone;
    }
  }
}
