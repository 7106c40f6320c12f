/**
 Request bodies kept in memory or in a disk cache file. Both storages are compared
 with one seekable byte store, and the global usage counters with the storages
 that are open. I/O faults appear where the source reacts to them: creating the
 cache file may fail. Counters are taken to stay far from the 64-bit limit.
 */
module BodyStorage {
  import opened Basics

  const MAX_INT64 := 0x7FFF_FFFF_FFFF_FFFF

  datatype Error = StorageClosed | EndOfFile | BadSeek | TooLarge | DiskFailure

  datatype Whence = Start | Current | End

  datatype Backend = Memory | Disk

  // --------------------------------------------------------- the one byte store

  /** A store and the positions of the independent readers opened on it. */
  datatype Store = Store(data: seq<byte>, pos: nat, closed: bool, readers: seq<nat>)

  datatype Op =
    | Read(n: nat)
    | Seek(offset: int, whence: Whence)
    | Bytes
    | Close
    | NewReader
    | ReadFrom(reader: nat, m: nat)  // on an independent reader

  datatype Outcome = Data(bytes: seq<byte>) | Position(at: nat) | Done | Failed(error: Error)

  /** Reading n bytes. The backends differ in one case: an empty read at the end is "end of file" for
      a byte reader, and an empty success for a file. */
  function ReadAt(b: Backend, data: seq<byte>, pos: nat, n: nat): Result<seq<byte>, Error> {
    if b.Disk? && n == 0 then Ok([])
    else if pos >= |data| then Err(EndOfFile)
    else Ok(data[pos..Min(pos + n, |data|)])
  }

  function Target(size: nat, pos: nat, offset: int, whence: Whence): int {
    (match whence case Start => 0 case Current => pos case End => size) + offset
  }

  function SeekTo(size: nat, pos: nat, offset: int, whence: Whence): (r: Result<nat, Error>)
    ensures r.Ok? ==> r.value <= MAX_INT64
  {
    var t := Target(size, pos, offset, whence);
    if t < 0 || t > MAX_INT64 then Err(BadSeek) else Ok(t)
  }

  function Step(b: Backend, s: Store, op: Op): (Store, Outcome) {
    if s.closed && !op.Close? && !op.ReadFrom? then (s, Failed(StorageClosed))
    else
      match op
      case Read(n) =>
        var r := ReadAt(b, s.data, s.pos, n);
        if r.Ok? then (s.(pos := s.pos + |r.value|), Data(r.value)) else (s, Failed(r.error))
      case Seek(offset, whence) =>
        var r := SeekTo(|s.data|, s.pos, offset, whence);
        if r.Ok? then (s.(pos := r.value), Position(r.value)) else (s, Failed(r.error))
      case Bytes => (s, Data(s.data))
      case Close => (s.(closed := true), Done)
      case NewReader => (s.(readers := s.readers + [0]), Done)
      case ReadFrom(i, n) =>
        if i >= |s.readers| then (s, Done)  // nobody holds such a reader
        else
          var r := ReadAt(b, s.data, s.readers[i], n);
          if r.Ok? then (s.(readers := s.readers[i := s.readers[i] + |r.value|]), Data(r.value))
          else (s, Failed(r.error))
  }

  // ------------------------------------------------------------- usage counters

  datatype Stats = Stats(diskFiles: int, diskBytes: int, memoryBuffers: int, memoryBytes: int,
                         diskHits: int, memoryHits: int)

  datatype Config = Config(enabled: bool, threshold: int, maxBytes: int)

  function Opened(s: Stats, b: Backend, size: int): Stats {
    if b.Disk? then s.(diskFiles := s.diskFiles + 1, diskBytes := s.diskBytes + size)
    else s.(memoryBuffers := s.memoryBuffers + 1, memoryBytes := s.memoryBytes + size)
  }

  function Clamped(n: int): int {
    if n < 0 then 0 else n
  }

  function Released(s: Stats, b: Backend, size: int): Stats {
    if b.Disk? then s.(diskFiles := Clamped(s.diskFiles - 1), diskBytes := Clamped(s.diskBytes - size))
    else s.(memoryBuffers := s.memoryBuffers - 1, memoryBytes := s.memoryBytes - size)
  }

  function Hit(s: Stats, b: Backend): Stats {
    if b.Disk? then s.(diskHits := s.diskHits + 1) else s.(memoryHits := s.memoryHits + 1)
  }

  predicate Available(cfg: Config, s: Stats, size: int) {
    cfg.enabled && s.diskBytes + size <= cfg.maxBytes
  }

  /** Where complete data goes; a failing cache file falls back to memory. */
  function Chosen(cfg: Config, s: Stats, size: int, fault: bool): Backend {
    if cfg.enabled && size >= cfg.threshold && Available(cfg, s, size) && !fault then Disk else Memory
  }

  /** Whether a stream of declared length goes to disk while it is read. */
  predicate Direct(cfg: Config, s: Stats, declared: int) {
    cfg.enabled && declared > 0 && declared >= cfg.threshold && Available(cfg, s, declared)
  }

  class Cache {
    var config: Config
    var stats: Stats

    constructor (config: Config)
      ensures this.config == config && stats == Stats(0, 0, 0, 0, 0, 0)
    {
      this.config := config;
      stats := Stats(0, 0, 0, 0, 0, 0);
    }

    method IncrementDiskFiles(size: int)
      modifies this`stats
      ensures stats == Opened(old(stats), Disk, size)
    {
      stats := stats.(diskFiles := stats.diskFiles + 1);
      stats := stats.(diskBytes := stats.diskBytes + size);
    }

    method DecrementDiskFiles(size: int)
      modifies this`stats
      ensures stats == Released(old(stats), Disk, size)
    {
      stats := stats.(diskFiles := stats.diskFiles - 1);
      if stats.diskFiles < 0 {
        stats := stats.(diskFiles := 0);
      }
      stats := stats.(diskBytes := stats.diskBytes - size);
      if stats.diskBytes < 0 {
        stats := stats.(diskBytes := 0);
      }
    }

    method IncrementMemoryBuffers(size: int)
      modifies this`stats
      ensures stats == Opened(old(stats), Memory, size)
    {
      stats := stats.(memoryBuffers := stats.memoryBuffers + 1);
      stats := stats.(memoryBytes := stats.memoryBytes + size);
    }

    method DecrementMemoryBuffers(size: int)
      modifies this`stats
      ensures stats == Released(old(stats), Memory, size)
    {
      stats := stats.(memoryBuffers := stats.memoryBuffers - 1);
      stats := stats.(memoryBytes := stats.memoryBytes - size);
    }
  }

  // ------------------------------------------------------------ readers and files

  /** A cursor over fixed content: a byte reader, or an open descriptor of a cache file, which keeps
      the content readable even after the file is removed. */
  class Cursor {
    const backend: Backend
    const content: seq<byte>
    var pos: nat

    constructor (backend: Backend, content: seq<byte>)
      ensures this.backend == backend && this.content == content && pos == 0
    {
      this.backend := backend;
      this.content := content;
      pos := 0;
    }

    method Read(n: nat) returns (r: Result<seq<byte>, Error>)
      modifies this
      ensures r == ReadAt(backend, content, old(pos), n)
      ensures pos == old(pos) + if r.Ok? then |r.value| else 0
    {
      if backend.Disk? && n == 0 {
        return Ok([]);
      }
      if pos >= |content| {
        return Err(EndOfFile);
      }
      var last := Min(pos + n, |content|);
      r := Ok(content[pos..last]);
      pos := last;
    }

    method Seek(offset: int, whence: Whence) returns (r: Result<nat, Error>)
      modifies this
      ensures r == SeekTo(|content|, old(pos), offset, whence)
      ensures pos == if r.Ok? then r.value else old(pos)
    {
      var base := match whence case Start => 0 case Current => pos case End => |content|;
      if base + offset < 0 || base + offset > MAX_INT64 {
        return Err(BadSeek);
      }
      pos := base + offset;
      r := Ok(pos);
    }

    /** Reads exactly n bytes, or fails. */
    method ReadFull(n: nat) returns (r: Result<seq<byte>, Error>)
      modifies this
      ensures old(pos) + n <= |content| ==> r == Ok(content[old(pos)..old(pos) + n]) && pos == old(pos) + n
    {
      var got: seq<byte> := [];
      while |got| < n
        invariant |got| <= n && pos == old(pos) + |got|
        invariant |got| > 0 ==> pos <= |content|
        invariant pos <= |content| ==> got == content[old(pos)..pos]
        decreases n - |got|
      {
        var chunk := Read(n - |got|);
        if chunk.Err? {
          return Err(chunk.error);
        }
        got := got + chunk.value;
      }
      r := Ok(got);
    }

    /** Saves the position, reads everything from the start and restores the position: from outside,
        the cursor has not moved. Absent faults none of the four calls can fail. */
    method ReadWhole(size: nat) returns (all: seq<byte>)
      requires size == |content| && pos <= MAX_INT64
      modifies this
      ensures all == content && pos == old(pos)
    {
      var here := Seek(0, Current);
      var rewound := Seek(0, Start);
      var got := ReadFull(size);
      var back := Seek(here.value, Start);
      assert rewound.Ok? && back.Ok?;
      all := got.value;
      assert content[0..size] == content;
    }
  }

  /** Where the readers stand. */
  ghost function Positions(cursors: seq<Cursor>): (r: seq<nat>)
    reads cursors
    ensures |r| == |cursors| && forall i :: 0 <= i < |cursors| ==> r[i] == cursors[i].pos
  {
    if cursors == [] then []
    else
      var n := |cursors| - 1;
      Positions(cursors[..n]) + [cursors[n].pos]
  }

  /** The readers handed out are different cursors over the same content, none of them the main one. */
  ghost predicate Apart(readers: seq<Cursor>, main: Cursor) {
    && main !in readers
    && (forall i, j :: 0 <= i < j < |readers| ==> readers[i] != readers[j])
    && (forall i :: 0 <= i < |readers| ==> readers[i].backend == main.backend && readers[i].content == main.content)
  }

  /** Reading from one of several different cursors moves that one only. */
  method ReadReader(c: Cursor, n: nat, ghost readers: seq<Cursor>, ghost i: nat) returns (r: Result<seq<byte>, Error>)
    requires i < |readers| && readers[i] == c
    requires forall j, k :: 0 <= j < k < |readers| ==> readers[j] != readers[k]
    modifies c
    ensures r == ReadAt(c.backend, c.content, old(Positions(readers))[i], n)
    ensures Positions(readers) ==
            if r.Ok? then old(Positions(readers))[i := old(Positions(readers))[i] + |r.value|]
            else old(Positions(readers))
  {
    r := c.Read(n);
    assert Positions(readers) == old(Positions(readers))[i := c.pos];
  }

  class MemoryStorage {
    const cache: Cache
    const data: seq<byte>
    const reader: Cursor
    const size: nat
    var closed: bool
    ghost var readers: seq<Cursor>  // handed out so far

    ghost predicate Valid()
      reads this
    {
      reader.backend.Memory? && reader.content == data && size == |data| && Apart(readers, reader)
    }

    /** What the storage and its readers are as a byte store. */
    ghost function Abs(): Store
      reads this, reader, readers
    {
      Store(data, reader.pos, closed, Positions(readers))
    }

    constructor (cache: Cache, data: seq<byte>)
      modifies cache`stats
      ensures Valid() && fresh(reader) && this.cache == cache && Abs() == Store(data, 0, false, [])
      ensures cache.stats == Opened(old(cache.stats), Memory, |data|)
    {
      this.cache := cache;
      this.data := data;
      reader := new Cursor(Memory, data);
      size := |data|;
      closed := false;
      readers := [];
      new;
      cache.IncrementMemoryBuffers(size);
    }

    method Read(n: nat) returns (o: Outcome)
      requires Valid()
      modifies reader
      ensures Valid() && (Abs(), o) == Step(Memory, old(Abs()), Op.Read(n))
    {
      if closed {
        return Failed(StorageClosed);
      }
      var r := reader.Read(n);
      o := if r.Ok? then Data(r.value) else Failed(r.error);
    }

    method Seek(offset: int, whence: Whence) returns (o: Outcome)
      requires Valid()
      modifies reader
      ensures Valid() && (Abs(), o) == Step(Memory, old(Abs()), Op.Seek(offset, whence))
    {
      if closed {
        return Failed(StorageClosed);
      }
      var r := reader.Seek(offset, whence);
      o := if r.Ok? then Position(r.value) else Failed(r.error);
    }

    method Bytes() returns (o: Outcome)
      requires Valid()
      ensures (Abs(), o) == Step(Memory, Abs(), Op.Bytes)
    {
      o := if closed then Failed(StorageClosed) else Data(data);
    }

    method NewReader() returns (r: Result<Cursor, Error>)
      requires Valid()
      modifies this`readers
      ensures Valid() && Abs() == Step(Memory, old(Abs()), Op.NewReader).0
      ensures Step(Memory, old(Abs()), Op.NewReader).1 == if r.Ok? then Done else Failed(r.error)
      ensures r.Ok? ==> fresh(r.value) && readers == old(readers) + [r.value]
    {
      if closed {
        return Err(StorageClosed);
      }
      var c := new Cursor(Memory, data);
      readers := readers + [c];
      r := Ok(c);
    }

    /** Reading from reader i, which the caller holds; the storage may be closed by then. */
    method ReadFrom(c: Cursor, n: nat, ghost i: nat) returns (o: Outcome)
      requires Valid() && i < |readers| && readers[i] == c
      modifies c
      ensures Valid() && (Abs(), o) == Step(Memory, old(Abs()), Op.ReadFrom(i, n))
    {
      var r := ReadReader(c, n, readers, i);
      o := if r.Ok? then Data(r.value) else Failed(r.error);
    }

    method Close()
      requires Valid()
      modifies this, cache`stats
      ensures Valid() && Abs() == Step(Memory, old(Abs()), Op.Close).0
      ensures cache.stats == if old(closed) then old(cache.stats) else Released(old(cache.stats), Memory, size)
    {
      if !closed {
        closed := true;
        cache.DecrementMemoryBuffers(size);
      }
    }
  }

  class DiskStorage {
    const cache: Cache
    const file: Cursor
    const size: nat
    var closed: bool
    ghost var readers: seq<Cursor>  // handed out so far

    ghost predicate Valid()
      reads this, file
    {
      && file.backend.Disk? && size == |file.content| <= MAX_INT64 && file.pos <= MAX_INT64
      && Apart(readers, file)
    }

    ghost function Abs(): Store
      reads this, file, readers
    {
      Store(file.content, file.pos, closed, Positions(readers))
    }

    /** The cache file has been written and rewound. */
    constructor (cache: Cache, written: seq<byte>)
      requires |written| <= MAX_INT64
      modifies cache`stats
      ensures Valid() && fresh(file) && this.cache == cache && Abs() == Store(written, 0, false, [])
      ensures cache.stats == Opened(old(cache.stats), Disk, |written|)
    {
      this.cache := cache;
      file := new Cursor(Disk, written);
      size := |written|;
      closed := false;
      readers := [];
      new;
      cache.IncrementDiskFiles(size);
    }

    method Read(n: nat) returns (o: Outcome)
      requires Valid()
      modifies file
      ensures Valid() && (Abs(), o) == Step(Disk, old(Abs()), Op.Read(n))
    {
      if closed {
        return Failed(StorageClosed);
      }
      var r := file.Read(n);
      o := if r.Ok? then Data(r.value) else Failed(r.error);
    }

    method Seek(offset: int, whence: Whence) returns (o: Outcome)
      requires Valid()
      modifies file
      ensures Valid() && (Abs(), o) == Step(Disk, old(Abs()), Op.Seek(offset, whence))
    {
      if closed {
        return Failed(StorageClosed);
      }
      var r := file.Seek(offset, whence);
      o := if r.Ok? then Position(r.value) else Failed(r.error);
    }

    method Bytes() returns (o: Outcome)
      requires Valid()
      modifies file
      ensures Valid() && (Abs(), o) == Step(Disk, old(Abs()), Op.Bytes)
    {
      if closed {
        return Failed(StorageClosed);
      }
      var all := file.ReadWhole(size);
      o := Data(all);
    }

    method NewReader() returns (r: Result<Cursor, Error>)
      requires Valid()
      modifies this`readers
      ensures Valid() && Abs() == Step(Disk, old(Abs()), Op.NewReader).0
      ensures Step(Disk, old(Abs()), Op.NewReader).1 == if r.Ok? then Done else Failed(r.error)
      ensures r.Ok? ==> fresh(r.value) && readers == old(readers) + [r.value]
    {
      if closed {
        return Err(StorageClosed);
      }
      var c := new Cursor(Disk, file.content);
      readers := readers + [c];
      r := Ok(c);
    }

    /** Reading from reader i: its descriptor outlives the storage. */
    method ReadFrom(c: Cursor, n: nat, ghost i: nat) returns (o: Outcome)
      requires Valid() && i < |readers| && readers[i] == c
      modifies c
      ensures Valid() && (Abs(), o) == Step(Disk, old(Abs()), Op.ReadFrom(i, n))
    {
      var r := ReadReader(c, n, readers, i);
      o := if r.Ok? then Data(r.value) else Failed(r.error);
    }

    method Close()
      requires Valid()
      modifies this, cache`stats
      ensures Valid() && Abs() == Step(Disk, old(Abs()), Op.Close).0
      ensures cache.stats == if old(closed) then old(cache.stats) else Released(old(cache.stats), Disk, size)
    {
      if !closed {
        closed := true;
        cache.DecrementDiskFiles(size);
      }
    }
  }

  // --------------------------------------------------------- both backends agree

  function After(b: Backend, s: Store, ops: seq<Op>): Store {
    if ops == [] then s else Step(b, After(b, s, ops[..|ops| - 1]), ops[|ops| - 1]).0
  }

  function Outcomes(b: Backend, s: Store, ops: seq<Op>): seq<Outcome> {
    if ops == [] then []
    else
      var p := ops[..|ops| - 1];
      Outcomes(b, s, p) + [Step(b, After(b, s, p), ops[|ops| - 1]).1]
  }

  /** An empty read at or past the end, of an open store or of a reader. */
  predicate EmptyAtEnd(s: Store, op: Op) {
    match op
    case Read(n) => !s.closed && n == 0 && s.pos >= |s.data|
    case ReadFrom(i, n) => i < |s.readers| && n == 0 && s.readers[i] >= |s.data|
    case _ => false
  }

  predicate AvoidsEmptyAtEnd(s: Store, ops: seq<Op>) {
    ops == [] ||
    var p := ops[..|ops| - 1];
    AvoidsEmptyAtEnd(s, p) && !EmptyAtEnd(After(Memory, s, p), ops[|ops| - 1])
  }

  lemma StepAgrees(s: Store, op: Op)
    ensures Step(Memory, s, op).0 == Step(Disk, s, op).0
    ensures Step(Memory, s, op).1 == Step(Disk, s, op).1 <==> !EmptyAtEnd(s, op)
  {
  }

  /** Under every sequence of operations both backends pass through the same states, and give the same
      outcomes if and only if the sequence never makes an empty read at the end. */
  lemma {:induction false} BackendsAgree(s: Store, ops: seq<Op>)
    ensures After(Memory, s, ops) == After(Disk, s, ops)
    ensures Outcomes(Memory, s, ops) == Outcomes(Disk, s, ops) <==> AvoidsEmptyAtEnd(s, ops)
    ensures |Outcomes(Memory, s, ops)| == |Outcomes(Disk, s, ops)| == |ops|
    decreases |ops|
  {
    if ops != [] {
      var p := ops[..|ops| - 1];
      BackendsAgree(s, p);
      StepAgrees(After(Memory, s, p), ops[|ops| - 1]);
      var a, b := Outcomes(Memory, s, ops), Outcomes(Disk, s, ops);
      assert a[..|p|] == Outcomes(Memory, s, p) && b[..|p|] == Outcomes(Disk, s, p);
      assert a[|p|] == Step(Memory, After(Memory, s, p), ops[|ops| - 1]).1;
      assert b[|p|] == Step(Disk, After(Disk, s, p), ops[|ops| - 1]).1;
    }
  }

  lemma {:induction false} SameContent(b: Backend, s: Store, ops: seq<Op>)
    ensures After(b, s, ops).data == s.data
    decreases |ops|
  {
    if ops != [] {
      SameContent(b, s, ops[..|ops| - 1]);
    }
  }

  /** After any operations that leave the storage open, its bytes are the content it was created with, and
      asking for them moves nothing. */
  lemma BytesAreContent(b: Backend, data: seq<byte>, ops: seq<Op>)
    requires !After(b, Store(data, 0, false, []), ops).closed
    ensures
      var s := After(b, Store(data, 0, false, []), ops);
      Step(b, s, Bytes) == (s, Data(data))
  {
    SameContent(b, Store(data, 0, false, []), ops);
  }

  /** Where a seek asks to go: counted from the start, the current position or the end. */
  function Asked(s: Store, offset: int, whence: Whence): int {
    match whence
    case Start => offset
    case Current => s.pos + offset
    case End => |s.data| + offset
  }

  /** A seek in an open storage goes where it asks, unless that is negative or above the largest int64. */
  lemma SeekExact(b: Backend, s: Store, offset: int, whence: Whence)
    requires !s.closed
    ensures
      var t := Asked(s, offset, whence);
      Step(b, s, Seek(offset, whence)) ==
      if 0 <= t <= 0x7FFF_FFFF_FFFF_FFFF then (s.(pos := t), Position(t)) else (s, Failed(BadSeek))
  {
  }

  /** A read of n bytes in an open storage gives the bytes from the position on. */
  lemma ReadExact(b: Backend, s: Store, n: nat)
    requires !s.closed && n > 0
    ensures
      var end := if s.pos + n < |s.data| then s.pos + n else |s.data|;
      Step(b, s, Read(n)) ==
      if s.pos < |s.data| then (s.(pos := end), Data(s.data[s.pos..end])) else (s, Failed(EndOfFile))
  {
  }

  /** After any operations that leave the storage open, seeking and then reading n bytes gives the bytes of
      the content created, from the place sought on. */
  lemma SeekThenRead(b: Backend, data: seq<byte>, ops: seq<Op>, offset: int, whence: Whence, n: nat)
    requires !After(b, Store(data, 0, false, []), ops).closed && n > 0
    requires 0 <= Asked(After(b, Store(data, 0, false, []), ops), offset, whence) <= 0x7FFF_FFFF_FFFF_FFFF
    ensures
      var s := After(b, Store(data, 0, false, []), ops);
      var t := Asked(s, offset, whence);
      var end := if t + n < |data| then t + n else |data|;
      Step(b, Step(b, s, Seek(offset, whence)).0, Read(n)).1 ==
      if t < |data| then Data(data[t..end]) else Failed(EndOfFile)
  {
    var s := After(b, Store(data, 0, false, []), ops);
    SameContent(b, Store(data, 0, false, []), ops);
    SeekExact(b, s, offset, whence);
    ReadExact(b, s.(pos := Asked(s, offset, whence)), n);
  }

  /** Content never changes, and once closed every use of the storage itself fails for good. */
  lemma {:induction false} ClosedForGood(b: Backend, s: Store, ops: seq<Op>, op: Op)
    requires s.closed && !op.Close? && !op.ReadFrom?
    ensures After(b, s, ops).closed && After(b, s, ops).data == s.data && After(b, s, ops).pos == s.pos
    ensures Step(b, After(b, s, ops), op) == (After(b, s, ops), Failed(StorageClosed))
    decreases |ops|
  {
    if ops != [] {
      ClosedForGood(b, s, ops[..|ops| - 1], op);
    }
  }

  /** Where a reader at pos stands after an operation, if only reads on reader i move it. */
  function Moved(b: Backend, data: seq<byte>, pos: nat, i: nat, op: Op): nat {
    if op.ReadFrom? && op.reader == i && ReadAt(b, data, pos, op.m).Ok?
    then pos + |ReadAt(b, data, pos, op.m).value| else pos
  }

  /** The position of reader i, from the reads made on that reader alone. */
  function ReaderAlone(b: Backend, data: seq<byte>, pos: nat, i: nat, ops: seq<Op>): nat {
    if ops == [] then pos
    else Moved(b, data, ReaderAlone(b, data, pos, i, ops[..|ops| - 1]), i, ops[|ops| - 1])
  }

  /** Readers are independent: nothing done to the storage (closing it included) or to other readers
      moves a reader or changes what it will read. */
  lemma {:induction false} ReadersIndependent(b: Backend, s: Store, i: nat, ops: seq<Op>)
    requires i < |s.readers|
    ensures After(b, s, ops).data == s.data && i < |After(b, s, ops).readers|
    ensures After(b, s, ops).readers[i] == ReaderAlone(b, s.data, s.readers[i], i, ops)
    decreases |ops|
  {
    if ops != [] {
      ReadersIndependent(b, s, i, ops[..|ops| - 1]);
      ReaderStep(b, After(b, s, ops[..|ops| - 1]), i, ops[|ops| - 1]);
    }
  }

  lemma ReaderStep(b: Backend, s: Store, i: nat, op: Op)
    requires i < |s.readers|
    ensures
      var next := Step(b, s, op).0;
      && next.data == s.data && i < |next.readers|
      && next.readers[i] == Moved(b, s.data, s.readers[i], i, op)
  {
  }

  /** Everything from pos on, read in chunks of n bytes until the end of file. */
  function Drained(b: Backend, data: seq<byte>, pos: nat, n: nat): seq<byte>
    requires n > 0
    decreases |data| - pos
  {
    var r := ReadAt(b, data, pos, n);
    if r.Err? then [] else r.value + Drained(b, data, pos + |r.value|, n)
  }

  /** Replaying a body gives it back, whatever the chunk size. */
  lemma {:induction false} DrainedAll(b: Backend, data: seq<byte>, pos: nat, n: nat)
    requires n > 0 && pos <= |data|
    ensures Drained(b, data, pos, n) == data[pos..]
    decreases |data| - pos
  {
    if pos < |data| {
      var next := Min(pos + n, |data|);
      DrainedAll(b, data, next, n);
      assert data[pos..] == data[pos..next] + data[next..];
    }
  }

  // -------------------------------------------------------------------- creation

  /** Addition as 64-bit arithmetic does it. */
  function Wrap(n: int): int {
    if n > MAX_INT64 then n - 0x1_0000_0000_0000_0000 else n
  }

  /** How much of a stream of the given length is taken: at most maxBytes + 1 bytes are read, and more
      than maxBytes is refused. */
  function Taken(length: nat, maxBytes: int): Result<nat, Error> {
    var limit := Wrap(maxBytes + 1);
    var got := if limit <= 0 then 0 else Min(length, limit);
    if got > maxBytes then Err(TooLarge) else Ok(got)
  }

  /** A stream is taken whole, or refused for its length, if and only if adding one to maxBytes does
      not overflow (or there is nothing to take). At the overflow every body becomes empty. */
  lemma TakenExact(length: nat, maxBytes: int)
    requires maxBytes <= MAX_INT64
    ensures Taken(length, maxBytes) == (if length <= maxBytes then Ok(length) else Err(TooLarge))
            <==> maxBytes < MAX_INT64 || length == 0
    ensures maxBytes == MAX_INT64 ==> Taken(length, maxBytes) == Ok(0)
  {
  }

  datatype Body = InMemory(m: MemoryStorage) | OnDisk(d: DiskStorage)

  /** The body holds exactly this content, unread and open. */
  ghost predicate Fresh(body: Body, b: Backend, content: seq<byte>)
    reads if body.InMemory? then {body.m, body.m.reader} else {body.d, body.d.file}
    reads if body.InMemory? then body.m.readers else body.d.readers
  {
    match body
    case InMemory(m) => b.Memory? && m.Valid() && m.Abs() == Store(content, 0, false, [])
    case OnDisk(d) => b.Disk? && d.Valid() && d.Abs() == Store(content, 0, false, [])
  }

  method CreateBodyStorage(cache: Cache, data: seq<byte>, fault: bool) returns (body: Body)
    requires |data| <= MAX_INT64
    modifies cache`stats
    ensures Fresh(body, Chosen(cache.config, old(cache.stats), |data|, fault), data)
    ensures cache.stats == Opened(old(cache.stats), Chosen(cache.config, old(cache.stats), |data|, fault), |data|)
    ensures body.OnDisk? <==>
            && cache.config.enabled && |data| >= cache.config.threshold && !fault
            && old(cache.stats.diskBytes) + |data| <= cache.config.maxBytes
  {
    if cache.config.enabled && |data| >= cache.config.threshold && Available(cache.config, cache.stats, |data|) {
      if fault {
        var m := new MemoryStorage(cache, data);
        return InMemory(m);
      }
      var d := new DiskStorage(cache, data);
      return OnDisk(d);
    }
    var m := new MemoryStorage(cache, data);
    body := InMemory(m);
  }

  /** Where a stream ends up, if it does. */
  function StreamBackend(cfg: Config, s: Stats, declared: int, size: nat, fault: bool): Backend {
    if Direct(cfg, s, declared) then Disk else Chosen(cfg, s, size, fault)
  }

  /** When a stream goes to disk while it is read, when complete data does, and where a stream ends up. */
  lemma DiskExact(cfg: Config, s: Stats, declared: int, size: nat, fault: bool)
    ensures Direct(cfg, s, declared) <==>
            cfg.enabled && declared > 0 && declared >= cfg.threshold && s.diskBytes + declared <= cfg.maxBytes
    ensures Chosen(cfg, s, size, fault) == Disk <==>
            cfg.enabled && size >= cfg.threshold && s.diskBytes + size <= cfg.maxBytes && !fault
    ensures StreamBackend(cfg, s, declared, size, fault) == Disk <==>
            && cfg.enabled
            && (|| (declared > 0 && declared >= cfg.threshold && s.diskBytes + declared <= cfg.maxBytes)
                || (size >= cfg.threshold && s.diskBytes + size <= cfg.maxBytes && !fault))
  {
  }

  /** Absent disk faults, whether a stream is accepted, and the content it then holds, depend only on
      the stream and maxBytes, not on the backend it goes to. */
  method CreateFromReader(cache: Cache, stream: seq<byte>, declared: int, maxBytes: int, fault: bool)
    returns (r: Result<Body, Error>)
    requires |stream| <= MAX_INT64 && maxBytes <= MAX_INT64
    modifies cache`stats
    ensures
      var direct := Direct(cache.config, old(cache.stats), declared);
      var taken := Taken(|stream|, maxBytes);
      if direct && fault then r == Err(DiskFailure) && cache.stats == old(cache.stats)
      else if taken.Err? then r == Err(TooLarge) && cache.stats == old(cache.stats)
      else
        var b := StreamBackend(cache.config, old(cache.stats), declared, taken.value, fault);
        r.Ok? && Fresh(r.value, b, stream[..taken.value])
        && cache.stats == Hit(Opened(old(cache.stats), b, taken.value), b)
  {
    if Direct(cache.config, cache.stats, declared) {
      if fault {
        return Err(DiskFailure);
      }
      var written := Limited(stream, Wrap(maxBytes + 1));
      if |written| > maxBytes {
        return Err(TooLarge);
      }
      var d := new DiskStorage(cache, written);
      cache.stats := cache.stats.(diskHits := cache.stats.diskHits + 1);
      return Ok(OnDisk(d));
    }
    var data := Limited(stream, Wrap(maxBytes + 1));
    if |data| > maxBytes {
      return Err(TooLarge);
    }
    var body := CreateBodyStorage(cache, data, fault);
    if body.InMemory? {
      cache.stats := cache.stats.(memoryHits := cache.stats.memoryHits + 1);
    } else {
      cache.stats := cache.stats.(diskHits := cache.stats.diskHits + 1);
    }
    r := Ok(body);
  }

  function Limited(stream: seq<byte>, limit: int): (r: seq<byte>)
    ensures r <= stream
  {
    if limit <= 0 then [] else stream[..Min(|stream|, limit)]
  }

  // ------------------------------------------------------------- exact accounting

  /** A holder of cached bytes that was counted: a storage, or a file of the file service. */
  datatype Held = Held(backend: Backend, size: nat, open: bool)

  /** A creation under way. Requests run side by side, so between the decision where the bytes go and
      their being counted anything can happen. */
  datatype Upload =
    | Buffering(size: nat, fault: bool)                     // a stream read into memory, then decided
    | Writing(backend: Backend, size: nat, stream: bool)    // decided, not yet counted
    | Settled(backend: Backend, stream: bool)

  datatype World = World(stats: Stats, uploads: seq<Upload>, held: seq<Held>)

  const EMPTY := World(Stats(0, 0, 0, 0, 0, 0), [], [])

  datatype Event =
    | FromData(n: nat, fault: bool)
    | FromStream(length: nat, declared: int, maxBytes: int, fault: bool)
    | FromFile(n: nat, fault: bool)      // the file service: uncounted unless it goes to disk
    | Advance(u: nat)
    | Closing(i: nat)

  function Begun(w: World, u: Upload): World {
    w.(uploads := w.uploads + [u])
  }

  function Added(w: World, b: Backend, size: nat): World {
    w.(stats := Opened(w.stats, b, size), held := w.held + [Held(b, size, true)])
  }

  /** What a creation starts as, deciding with the counters as they are; nothing if it is refused. */
  function Start(cfg: Config, s: Stats, e: Event): Option<Upload> {
    match e
    case FromData(n, fault) => Some(Writing(Chosen(cfg, s, n, fault), n, false))
    case FromStream(length, declared, maxBytes, fault) =>
      var taken := Taken(length, maxBytes);
      if taken.Err? then None
      else if !Direct(cfg, s, declared) then Some(Buffering(taken.value, fault))
      else if fault then None
      else Some(Writing(Disk, taken.value, true))
    case FromFile(n, fault) => if Chosen(cfg, s, n, fault).Disk? then Some(Writing(Disk, n, false)) else None
    case _ => None
  }

  /** The next step of a creation: a buffered stream is decided, a decided one is counted. */
  function Advanced(cfg: Config, w: World, u: nat): World
    requires u < |w.uploads|
  {
    match w.uploads[u]
    case Buffering(n, fault) => w.(uploads := w.uploads[u := Writing(Chosen(cfg, w.stats, n, fault), n, true)])
    case Writing(b, n, stream) =>
      var added := Added(w.(uploads := w.uploads[u := Settled(b, stream)]), b, n);
      if stream then added.(stats := Hit(added.stats, b)) else added
    case Settled(_, _) => w
  }

  function Next(cfg: Config, w: World, e: Event): World {
    match e
    case Advance(u) => if u < |w.uploads| then Advanced(cfg, w, u) else w
    case Closing(i) =>
      if i < |w.held| && w.held[i].open then
        var h := w.held[i];
        w.(stats := Released(w.stats, h.backend, h.size), held := w.held[i := h.(open := false)])
      else w
    case _ =>
      var start := Start(cfg, w.stats, e);
      if start.Some? then Begun(w, start.value) else w
  }

  function Run(cfg: Config, events: seq<Event>): World {
    if events == [] then EMPTY else Next(cfg, Run(cfg, events[..|events| - 1]), events[|events| - 1])
  }

  /** With no other request in between, the steps of a stream count what `CreateFromReader` counts. */
  lemma AloneAgrees(cfg: Config, w: World, length: nat, declared: int, maxBytes: int)
    requires Taken(length, maxBytes).Ok?
    ensures
      var n := Taken(length, maxBytes).value;
      var b := StreamBackend(cfg, w.stats, declared, n, false);
      var begun := Next(cfg, w, FromStream(length, declared, maxBytes, false));
      var once := Next(cfg, begun, Advance(|w.uploads|));
      var twice := Next(cfg, once, Advance(|w.uploads|));
      (if Direct(cfg, w.stats, declared) then once else twice).stats == Hit(Opened(w.stats, b, n), b)
  {
  }

  function Part(h: Held, b: Backend, bytes: bool): nat {
    if h.open && h.backend == b then (if bytes then h.size else 1) else 0
  }

  /** The number, or the total size, of open holders of one kind. */
  function Total(hs: seq<Held>, b: Backend, bytes: bool): nat {
    if hs == [] then 0 else Total(hs[..|hs| - 1], b, bytes) + Part(hs[|hs| - 1], b, bytes)
  }

  lemma {:induction false} TotalUpdate(hs: seq<Held>, i: nat, h: Held, b: Backend, bytes: bool)
    requires i < |hs|
    ensures Total(hs[i := h], b, bytes) == Total(hs, b, bytes) - Part(hs[i], b, bytes) + Part(h, b, bytes)
    ensures Part(hs[i], b, bytes) <= Total(hs, b, bytes)
    decreases |hs|
  {
    var n := |hs| - 1;
    if i == n {
      assert hs[i := h][..n] == hs[..n];
    } else {
      TotalUpdate(hs[..n], i, h, b, bytes);
      assert hs[i := h][..n] == hs[..n][i := h];
    }
  }

  function CounterOf(s: Stats, b: Backend, bytes: bool): int {
    if b.Disk? then (if bytes then s.diskBytes else s.diskFiles)
    else (if bytes then s.memoryBytes else s.memoryBuffers)
  }

  /** The same release without clamping. */
  function Unclamped(s: Stats, b: Backend, size: int): Stats {
    if b.Disk? then s.(diskFiles := s.diskFiles - 1, diskBytes := s.diskBytes - size) else Released(s, b, size)
  }

  lemma AddedTotal(w: World, k: Backend, size: nat, b: Backend, bytes: bool)
    requires CounterOf(w.stats, b, bytes) == Total(w.held, b, bytes)
    ensures CounterOf(Added(w, k, size).stats, b, bytes) == Total(Added(w, k, size).held, b, bytes)
    ensures CounterOf(Hit(Added(w, k, size).stats, k), b, bytes) == Total(Added(w, k, size).held, b, bytes)
  {
    var hs := Added(w, k, size).held;
    assert hs[..|hs| - 1] == w.held;
  }

  lemma ClosedTotal(w: World, i: nat, b: Backend, bytes: bool)
    requires CounterOf(w.stats, b, bytes) == Total(w.held, b, bytes)
    requires i < |w.held| && w.held[i].open
    ensures
      var h := w.held[i];
      var counter := CounterOf(Released(w.stats, h.backend, h.size), b, bytes);
      && counter == Total(w.held[i := h.(open := false)], b, bytes)
      && counter == CounterOf(Unclamped(w.stats, h.backend, h.size), b, bytes)
  {
    TotalUpdate(w.held, i, w.held[i].(open := false), b, bytes);
  }

  lemma NextTotal(cfg: Config, w: World, e: Event, b: Backend, bytes: bool)
    requires CounterOf(w.stats, b, bytes) == Total(w.held, b, bytes)
    ensures CounterOf(Next(cfg, w, e).stats, b, bytes) == Total(Next(cfg, w, e).held, b, bytes)
  {
    if e.Advance? && e.u < |w.uploads| && w.uploads[e.u].Writing? {
      var u := w.uploads[e.u];
      AddedTotal(w.(uploads := w.uploads[e.u := Settled(u.backend, u.stream)]), u.backend, u.size, b, bytes);
    } else if e.Closing? && e.i < |w.held| && w.held[e.i].open {
      ClosedTotal(w, e.i, b, bytes);
    }
  }

  /** After every run of creations, side by side, successful or refused, and of repeated closes, each
      counter is the number, or total size, of the holders of its kind that are open. */
  lemma {:induction false} CountersExact(cfg: Config, events: seq<Event>, b: Backend, bytes: bool)
    ensures CounterOf(Run(cfg, events).stats, b, bytes) == Total(Run(cfg, events).held, b, bytes)
    decreases |events|
  {
    if events != [] {
      CountersExact(cfg, events[..|events| - 1], b, bytes);
      NextTotal(cfg, Run(cfg, events[..|events| - 1]), events[|events| - 1], b, bytes);
    }
  }

  /** Closing an open holder never meets the clamps, in any run. */
  lemma ClampsNeverFire(cfg: Config, events: seq<Event>, i: nat)
    requires i < |Run(cfg, events).held| && Run(cfg, events).held[i].open
    ensures
      var w := Run(cfg, events);
      var h := w.held[i];
      Released(w.stats, h.backend, h.size) == Unclamped(w.stats, h.backend, h.size)
  {
    var w := Run(cfg, events);
    CountersExact(cfg, events, Disk, true);
    CountersExact(cfg, events, Disk, false);
    ClosedTotal(w, i, Disk, true);
    ClosedTotal(w, i, Disk, false);
  }

  // ------------------------------------------------------------------------- hits

  /** The streams that ended up in a backend. */
  function Streams(us: seq<Upload>, b: Backend): nat {
    if us == [] then 0 else Streams(us[..|us| - 1], b) + Arrived(us[|us| - 1], b)
  }

  function Arrived(u: Upload, b: Backend): nat {
    if u.Settled? && u.stream && u.backend == b then 1 else 0
  }

  lemma {:induction false} StreamsUpdate(us: seq<Upload>, i: nat, u: Upload, b: Backend)
    requires i < |us|
    ensures Streams(us[i := u], b) == Streams(us, b) - Arrived(us[i], b) + Arrived(u, b)
    decreases |us|
  {
    var n := |us| - 1;
    if i == n {
      assert us[i := u][..n] == us[..n];
    } else {
      StreamsUpdate(us[..n], i, u, b);
      assert us[i := u][..n] == us[..n][i := u];
    }
  }

  function HitsOf(s: Stats, b: Backend): int {
    if b.Disk? then s.diskHits else s.memoryHits
  }

  lemma NextHits(cfg: Config, w: World, e: Event, b: Backend)
    requires HitsOf(w.stats, b) == Streams(w.uploads, b)
    ensures HitsOf(Next(cfg, w, e).stats, b) == Streams(Next(cfg, w, e).uploads, b)
  {
    if e.Advance? {
      if e.u < |w.uploads| {
        var next := Advanced(cfg, w, e.u);
        StreamsUpdate(w.uploads, e.u, next.uploads[e.u], b);
        assert next.uploads == w.uploads[e.u := next.uploads[e.u]];
      }
    } else if !e.Closing? && Start(cfg, w.stats, e).Some? {
      var u := Start(cfg, w.stats, e).value;
      assert (w.uploads + [u])[..|w.uploads|] == w.uploads;
    }
  }

  /** After every run, the hits of a backend are the streams that ended up in it. */
  lemma {:induction false} HitsExact(cfg: Config, events: seq<Event>, b: Backend)
    ensures HitsOf(Run(cfg, events).stats, b) == Streams(Run(cfg, events).uploads, b)
    decreases |events|
  {
    if events != [] {
      HitsExact(cfg, events[..|events| - 1], b);
      NextHits(cfg, Run(cfg, events[..|events| - 1]), events[|events| - 1], b);
    }
  }

  // ---------------------------------------------------------------- the disk limit

  predicate ToDisk(u: Upload) {
    u.Writing? && u.backend.Disk?
  }

  /** The event counts more bytes on disk than there is room for by then. */
  predicate Overruns(cfg: Config, w: World, e: Event) {
    && e.Advance? && e.u < |w.uploads| && ToDisk(w.uploads[e.u])
    && w.uploads[e.u].size > cfg.maxBytes - w.stats.diskBytes
  }

  predicate NeverOverruns(cfg: Config, events: seq<Event>) {
    events == [] ||
    var p := events[..|events| - 1];
    NeverOverruns(cfg, p) && !Overruns(cfg, Run(cfg, p), events[|events| - 1])
  }

  ghost predicate WithinLimit(cfg: Config, events: seq<Event>) {
    Run(cfg, events).stats.diskBytes <= cfg.maxBytes
    && (events != [] ==> WithinLimit(cfg, events[..|events| - 1]))
  }

  lemma CloseFrees(cfg: Config, events: seq<Event>, i: nat)
    ensures Next(cfg, Run(cfg, events), Closing(i)).stats.diskBytes <= Run(cfg, events).stats.diskBytes
  {
    if i < |Run(cfg, events).held| && Run(cfg, events).held[i].open {
      ClampsNeverFire(cfg, events, i);
    }
  }

  /** Disk usage is within the limit in all states of a run if and only if the limit is not negative and
      nothing is counted that overruns the room left at that moment. */
  lemma {:induction false} DiskLimitIff(cfg: Config, events: seq<Event>)
    ensures WithinLimit(cfg, events) <==> cfg.maxBytes >= 0 && NeverOverruns(cfg, events)
    decreases |events|
  {
    if events != [] {
      var p := events[..|events| - 1];
      var e := events[|events| - 1];
      DiskLimitIff(cfg, p);
      if e.Closing? {
        CloseFrees(cfg, p, e.i);
      }
    }
  }

  // ................................................... how far usage can exceed it

  function Weight(u: Upload, bytes: bool): nat {
    if !ToDisk(u) then 0 else if bytes then u.size else 1
  }

  /** The number, or the total size, of the creations on their way to disk. */
  function Flying(us: seq<Upload>, bytes: bool): nat {
    if us == [] then 0 else Flying(us[..|us| - 1], bytes) + Weight(us[|us| - 1], bytes)
  }

  function OnTheWay(us: seq<Upload>): set<nat> {
    set i: nat | i < |us| && ToDisk(us[i])
  }

  /** Without sizes, these are as many as creations are on their way to disk. */
  lemma {:induction false} FlyingCounts(us: seq<Upload>)
    ensures Flying(us, false) == |OnTheWay(us)|
  {
    if us != [] {
      var n := |us| - 1;
      FlyingCounts(us[..n]);
      assert OnTheWay(us) == OnTheWay(us[..n]) + if ToDisk(us[n]) then {n} else {};
    }
  }

  lemma {:induction false} FlyingUpdate(us: seq<Upload>, i: nat, u: Upload, bytes: bool)
    requires i < |us|
    ensures Flying(us[i := u], bytes) == Flying(us, bytes) - Weight(us[i], bytes) + Weight(u, bytes)
    decreases |us|
  {
    var n := |us| - 1;
    if i == n {
      assert us[i := u][..n] == us[..n];
    } else {
      FlyingUpdate(us[..n], i, u, bytes);
      assert us[i := u][..n] == us[..n][i := u];
    }
  }

  lemma FlyingMore(us: seq<Upload>, u: Upload, bytes: bool)
    ensures Flying(us + [u], bytes) == Flying(us, bytes) + Weight(u, bytes)
  {
    assert (us + [u])[..|us|] == us;
  }

  /** A stream with a declared length is no longer than that; a stream without one can be any. */
  predicate Honest(e: Event) {
    e.FromStream? && e.declared > 0 ==> e.length <= e.declared
  }

  /** One more creation is on its way to disk. */
  predicate Admits(cfg: Config, w: World, e: Event) {
    Flying(Next(cfg, w, e).uploads, false) > Flying(w.uploads, false)
  }

  /** Whenever one is admitted, at most `others` bytes are on their way already. */
  predicate OthersAtMost(cfg: Config, events: seq<Event>, others: nat) {
    events == [] ||
    var p := events[..|events| - 1];
    && OthersAtMost(cfg, p, others)
    && (Admits(cfg, Run(cfg, p), events[|events| - 1]) ==> Flying(Run(cfg, p).uploads, true) <= others)
  }

  /** Bytes counted on disk or on their way there. */
  function Sum(w: World): int {
    w.stats.diskBytes + Flying(w.uploads, true)
  }

  lemma StartSum(cfg: Config, w: World, e: Event)
    requires Honest(e) && Start(cfg, w.stats, e).Some?
    ensures
      var next := Begun(w, Start(cfg, w.stats, e).value);
      && (ToDisk(Start(cfg, w.stats, e).value) ==> Sum(next) <= cfg.maxBytes + Flying(w.uploads, true))
      && (!ToDisk(Start(cfg, w.stats, e).value) ==> Sum(next) == Sum(w))
  {
    FlyingMore(w.uploads, Start(cfg, w.stats, e).value, true);
  }

  lemma AdvanceSum(cfg: Config, w: World, u: nat)
    requires u < |w.uploads|
    ensures
      var next := Advanced(cfg, w, u);
      if w.uploads[u].Buffering? && ToDisk(next.uploads[u]) then Sum(next) <= cfg.maxBytes + Flying(w.uploads, true)
      else Sum(next) == Sum(w)
  {
    var next := Advanced(cfg, w, u);
    FlyingUpdate(w.uploads, u, next.uploads[u], true);
    assert next.uploads == w.uploads[u := next.uploads[u]];
  }

  lemma AdmitsIff(cfg: Config, w: World, e: Event)
    ensures Admits(cfg, w, e) <==>
            match e
            case Advance(u) => u < |w.uploads| && w.uploads[u].Buffering? && ToDisk(Advanced(cfg, w, u).uploads[u])
            case Closing(_) => false
            case _ => Start(cfg, w.stats, e).Some? && ToDisk(Start(cfg, w.stats, e).value)
  {
    if e.Advance? {
      if e.u < |w.uploads| {
        var next := Advanced(cfg, w, e.u);
        FlyingUpdate(w.uploads, e.u, next.uploads[e.u], false);
        assert next.uploads == w.uploads[e.u := next.uploads[e.u]];
      }
    } else if Start(cfg, w.stats, e).Some? {
      FlyingMore(w.uploads, Start(cfg, w.stats, e).value, false);
    }
  }

  /** Every admission finds room for what it brings, and counting moves bytes without adding any. */
  lemma NextSum(cfg: Config, w: World, e: Event)
    requires Honest(e) && !e.Closing?
    ensures if Admits(cfg, w, e) then Sum(Next(cfg, w, e)) <= cfg.maxBytes + Flying(w.uploads, true)
            else Sum(Next(cfg, w, e)) <= Sum(w)
  {
    AdmitsIff(cfg, w, e);
    if e.Advance? {
      if e.u < |w.uploads| {
        AdvanceSum(cfg, w, e.u);
      }
    } else if Start(cfg, w.stats, e).Some? {
      StartSum(cfg, w, e);
    }
  }

  lemma {:induction false} DiskBound(cfg: Config, events: seq<Event>, others: nat)
    requires cfg.maxBytes >= 0 && OthersAtMost(cfg, events, others)
    requires forall i :: 0 <= i < |events| ==> Honest(events[i])
    ensures Sum(Run(cfg, events)) <= cfg.maxBytes + others
    decreases |events|
  {
    if events != [] {
      var p := events[..|events| - 1];
      var e := events[|events| - 1];
      DiskBound(cfg, p, others);
      assert Honest(e);
      if e.Closing? {
        CloseFrees(cfg, p, e.i);
      } else {
        NextSum(cfg, Run(cfg, p), e);
      }
    }
  }

  /** At most k creations are on their way to disk, each of at most m bytes. */
  ghost predicate Crowd(w: World, k: nat, m: nat) {
    Flying(w.uploads, false) <= k && forall i :: 0 <= i < |w.uploads| && ToDisk(w.uploads[i]) ==> w.uploads[i].size <= m
  }

  ghost predicate CrowdThroughout(cfg: Config, events: seq<Event>, k: nat, m: nat) {
    Crowd(Run(cfg, events), k, m) && (events != [] ==> CrowdThroughout(cfg, events[..|events| - 1], k, m))
  }

  lemma {:induction false} FlyingBytes(us: seq<Upload>, m: nat)
    requires forall i :: 0 <= i < |us| && ToDisk(us[i]) ==> us[i].size <= m
    ensures Flying(us, true) <= Times(Flying(us, false), m)
  {
    if us != [] {
      FlyingBytes(us[..|us| - 1], m);
    }
  }

  lemma {:induction false} TimesMonotone(a: nat, b: nat, m: nat)
    requires a <= b
    ensures Times(a, m) <= Times(b, m)
  {
    if a < b {
      TimesMonotone(a, b - 1, m);
    }
  }

  lemma {:induction false} CrowdOthers(cfg: Config, events: seq<Event>, k: nat, m: nat)
    requires k >= 1 && CrowdThroughout(cfg, events, k, m)
    ensures OthersAtMost(cfg, events, Times(k - 1, m))
    decreases |events|
  {
    if events != [] {
      var p := events[..|events| - 1];
      CrowdOthers(cfg, p, k, m);
      var us := Run(cfg, p).uploads;
      if Admits(cfg, Run(cfg, p), events[|events| - 1]) {
        FlyingBytes(us, m);
        TimesMonotone(Flying(us, false), k - 1, m);
      }
    }
  }

  /** With at most k creations side by side on their way to disk, of at most m bytes each and no stream
      longer than declared, usage exceeds the limit by at most (k - 1) * m. */
  lemma CrowdBound(cfg: Config, events: seq<Event>, k: nat, m: nat)
    requires cfg.maxBytes >= 0 && k >= 1 && CrowdThroughout(cfg, events, k, m)
    requires forall i :: 0 <= i < |events| ==> Honest(events[i])
    ensures Run(cfg, events).stats.diskBytes <= cfg.maxBytes + (k - 1) * m
  {
    CrowdOthers(cfg, events, k, m);
    DiskBound(cfg, events, Times(k - 1, m));
    TimesIsProduct(k - 1, m);
  }

  /** Creations go to disk one after the other. */
  predicate OneByOne(cfg: Config, events: seq<Event>) {
    OthersAtMost(cfg, events, 0)
  }

  /** In particular usage stays within the limit, in all states, when creations go to disk one after the
      other and no stream is longer than declared. */
  lemma {:induction false} DiskLimit(cfg: Config, events: seq<Event>)
    requires cfg.maxBytes >= 0 && OneByOne(cfg, events)
    requires forall i :: 0 <= i < |events| ==> Honest(events[i])
    ensures WithinLimit(cfg, events) && NeverOverruns(cfg, events)
    decreases |events|
  {
    DiskBound(cfg, events, 0);
    if events != [] {
      DiskLimit(cfg, events[..|events| - 1]);
    }
    DiskLimitIff(cfg, events);
  }

  /** k honest streams of n bytes: all admitted, then all counted. */
  function Admissions(n: nat, k: nat): (events: seq<Event>)
    ensures |events| == k && forall i :: 0 <= i < k ==> events[i] == FromStream(n, n, n, false)
  {
    if k == 0 then [] else Admissions(n, k - 1) + [FromStream(n, n, n, false)]
  }

  function SideBySide(n: nat, k: nat, counted: nat): (events: seq<Event>)
    ensures |events| == k + counted
    ensures forall i :: 0 <= i < |events| ==> events[i] == if i < k then FromStream(n, n, n, false) else Advance(i - k)
  {
    if counted == 0 then Admissions(n, k) else SideBySide(n, k, counted - 1) + [Advance(counted - 1)]
  }

  /** The first `counted` of k uploads are counted, the others still on their way. */
  ghost predicate Halfway(w: World, n: nat, k: nat, counted: nat) {
    && |w.uploads| == k && w.stats.diskBytes == Times(counted, n)
    && forall i :: counted <= i < k ==> w.uploads[i] == Writing(Disk, n, true)
  }

  lemma {:induction false} AllAdmitted(cfg: Config, n: nat, k: nat)
    requires cfg.enabled && 0 < n < MAX_INT64 && cfg.threshold <= n <= cfg.maxBytes
    ensures Halfway(Run(cfg, Admissions(n, k)), n, k, 0)
  {
    if k > 0 {
      AllAdmitted(cfg, n, k - 1);
      assert Admissions(n, k)[..k - 1] == Admissions(n, k - 1);
      var s := Run(cfg, Admissions(n, k - 1)).stats;
      assert Start(cfg, s, FromStream(n, n, n, false)) == Some(Writing(Disk, n, true));
    }
  }

  lemma {:induction false} AllCounted(cfg: Config, n: nat, k: nat, counted: nat)
    requires cfg.enabled && 0 < n < MAX_INT64 && cfg.threshold <= n <= cfg.maxBytes && counted <= k
    ensures Halfway(Run(cfg, SideBySide(n, k, counted)), n, k, counted)
    decreases counted
  {
    var events := SideBySide(n, k, counted);
    if counted == 0 {
      AllAdmitted(cfg, n, k);
    } else {
      AllCounted(cfg, n, k, counted - 1);
      assert events[..|events| - 1] == SideBySide(n, k, counted - 1);
    }
  }

  /** The bound is reached: k honest uploads of n bytes, admitted before any of them is counted, leave
      k * n counted, with n equal to the limit that is (k - 1) * n above it. */
  lemma CrowdReached(cfg: Config, n: nat, k: nat)
    requires cfg.enabled && 0 < n < MAX_INT64 && cfg.threshold <= n <= cfg.maxBytes
    ensures Run(cfg, SideBySide(n, k, k)).stats.diskBytes == k * n
    ensures forall i :: 0 <= i < 2 * k ==> Honest(SideBySide(n, k, k)[i])
  {
    AllCounted(cfg, n, k, k);
    TimesIsProduct(k, n);
  }

  /** So two honest uploads side by side break the limit. */
  lemma TwoBreakLimit(cfg: Config, n: nat)
    requires cfg.enabled && 0 < n < MAX_INT64 && cfg.threshold <= n <= cfg.maxBytes < 2 * n
    ensures Run(cfg, SideBySide(n, 2, 2)).stats.diskBytes > cfg.maxBytes
    ensures !WithinLimit(cfg, SideBySide(n, 2, 2))
  {
    CrowdReached(cfg, n, 2);
  }

  /** A stream that understates its length can push the usage past the limit all alone. */
  lemma UnderstatedBreaksLimit(cfg: Config, length: nat, declared: int)
    requires cfg.enabled && 0 < declared && cfg.threshold <= declared <= cfg.maxBytes < length < MAX_INT64
    ensures Run(cfg, [FromStream(length, declared, length, false), Advance(0)]).stats.diskBytes > cfg.maxBytes
  {
    var events := [FromStream(length, declared, length, false), Advance(0)];
    assert events[..1] == [events[0]] && events[..1][..0] == [];
    assert Run(cfg, events[..1]) == Next(cfg, EMPTY, events[0]);
  }
}
