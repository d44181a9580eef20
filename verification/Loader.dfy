/** setup_process and init_thread_stack: backing the pages of a program and of a thread's stack, and
    filling the program's pages, through the virtual memory manager. */
module Loader {
  import opened Paging
  import opened ElfImage
  import opened Records
  import AS = AddressSpaces
  import opened Scheduling
  import SystemRuns
  import UserPages

  const SUCCESS: int := 0
  const ERR_OUT_OF_MEMORY: int := 1
  const ERR_INVALID_ELF_EXECUTABLE: int := 5
  const ERR_UNKNOWN: int := 6
  const USER_END: int := 0xC000_0000
  const STACK_SIZE: int := 8192

  /** What the pages hold: a byte for each frame and offset written so far. */
  type Bytes = map<(int, int), Byte>

  // ----- user pages of the active address space -----

  ghost predicate MappedAt(s: AS.Spaces, a: int) {
    0 <= a < USER_END && Translate(s.ram, s.active, a).Mapped?
  }

  ghost predicate AllMapped(s: AS.Spaces, addr: int, n: int) {
    forall a :: addr <= a < addr + n ==> MappedAt(s, a)
  }

  /** User mode may read and write address a. */
  ghost predicate OpenTo(s: AS.Spaces, a: int) {
    0 <= a < USER_END && var c := AS.Key(s.active, DirIndex(a), TableIndex(a)); AS.OpenAt(s, c) && AS.WritableAt(s, c)
  }

  ghost predicate AllOpen(s: AS.Spaces, addr: int, n: int) {
    forall a :: addr <= a < addr + n ==> OpenTo(s, a)
  }

  function FrameIn(t: Target): int {
    match t case Unmapped => 0 case Mapped(f) => f
  }

  function FrameOf(s: AS.Spaces, a: Address): int {
    FrameIn(Translate(s.ram, s.active, a))
  }

  /** A program sees v at address a. */
  ghost predicate ByteIs(s: AS.Spaces, data: Bytes, a: int, v: Byte) {
    MappedAt(s, a) && (FrameOf(s, a), a % PAGE_SIZE) in data && data[(FrameOf(s, a), a % PAGE_SIZE)] == v
  }

  ghost predicate Holds(s: AS.Spaces, data: Bytes, addr: int, bytes: seq<Byte>) {
    forall k :: 0 <= k < |bytes| ==> ByteIs(s, data, addr + k, bytes[k])
  }

  /** t comes from s by backing more pages: nothing that was mapped has moved, closed to user mode or changed its
      write access, and user pages mapped since have been backed. */
  ghost predicate Grown(s: AS.Spaces, t: AS.Spaces) {
    && t.active == s.active && t.dirs == s.dirs && s.committed <= t.committed && AS.OpenKept(s, t)
    && (AS.HasTable(s, AS.TEMP_DIR) ==> AS.HasTable(t, AS.TEMP_DIR))
    && (forall c :: AS.IsPage(s, c) && AS.PageAt(s, c).Mapped? ==> AS.SameAt(s, t, c))
    && NewBacked(s, t) && AS.TablesKept(s, t)
  }

  ghost predicate NewBacked(s: AS.Spaces, t: AS.Spaces) {
    forall c :: AS.IsPage(s, c) && AS.PageAt(s, c).Unmapped? && AS.PageAt(t, c).Mapped? ==>
                  c in t.committed && AS.LeafAt(t, c).writable
  }

  lemma GrownTranslate(s: AS.Spaces, t: AS.Spaces, a: int)
    requires Grown(s, t) && s.active in s.dirs && MappedAt(s, a)
    ensures MappedAt(t, a) && FrameOf(t, a) == FrameOf(s, a)
  {
    var c := AS.Key(s.active, DirIndex(a), TableIndex(a));
    assert AS.IsPage(s, c) && AS.PageAt(s, c) == Translate(s.ram, s.active, a);
  }

  lemma GrownHolds(s: AS.Spaces, t: AS.Spaces, data: Bytes, addr: int, bytes: seq<Byte>)
    requires Grown(s, t) && s.active in s.dirs && Holds(s, data, addr, bytes)
    ensures Holds(t, data, addr, bytes)
  {
    forall k | 0 <= k < |bytes| ensures ByteIs(t, data, addr + k, bytes[k]) {
      assert ByteIs(s, data, addr + k, bytes[k]);
      GrownTranslate(s, t, addr + k);
    }
  }

  lemma GrownOpen(s: AS.Spaces, t: AS.Spaces, a: int)
    requires Grown(s, t) && s.active in s.dirs && OpenTo(s, a)
    ensures OpenTo(t, a)
  {
    assert AS.IsPage(s, AS.Key(s.active, DirIndex(a), TableIndex(a)));
  }

  lemma GrownTwice(s: AS.Spaces, t: AS.Spaces, u: AS.Spaces)
    requires Grown(s, t) && Grown(t, u)
    ensures Grown(s, u)
  {
    forall d, i | d in s.dirs && d in u.dirs && 0 <= i < AS.KERNEL_FIRST ensures AS.TableKept(s, u, d, i) {
      assert AS.TableKept(s, t, d, i) && AS.TableKept(t, u, d, i);
    }
    forall c | AS.IsPage(s, c) && AS.OpenAt(s, c) ensures AS.OpenAt(u, c) { assert AS.IsPage(t, c) && AS.OpenAt(t, c); }
    forall c | AS.IsPage(s, c) && AS.PageAt(s, c).Mapped? ensures AS.SameAt(s, u, c) {
      assert AS.IsPage(t, c) && AS.SameAt(s, t, c);
    }
  }

  /** Loading a program or a stack keeps queue and memory sound together, and the user pages of every process
      backed. */
  lemma GrownSound(limit: nat, s: SystemRuns.System, m: AS.Memory)
    requires SystemRuns.SystemInv(limit, s) && AS.MemoryInv(m, limit) && Grown(s.mem.spaces, m.spaces)
    ensures SystemRuns.SystemInv(limit, SystemRuns.System(m, s.sched))
    ensures UserPages.AllBacked(s) ==> UserPages.AllBacked(SystemRuns.System(m, s.sched))
  {
    if UserPages.AllBacked(s) {
      var before, after := UserPages.BackedDirs(s.mem.spaces), UserPages.BackedDirs(m.spaces);
      forall d | d in before ensures d in after { GrownBacked(s.mem.spaces, m.spaces, d); }
      HousedMore(s.sched.queue, before, after);
    }
  }

  lemma GrownBacked(s: AS.Spaces, t: AS.Spaces, d: int)
    requires Grown(s, t) && AS.Backed(s, d) && d in s.dirs
    ensures AS.Backed(t, d)
  {
    forall i, j | 0 <= i < AS.KERNEL_FIRST && 0 <= j < ENTRIES ensures AS.PageBacked(t, d, i, j) {
      var c := AS.Key(d, i, j);
      assert AS.PageBacked(s, d, i, j) && AS.TableWritable(s, d, i) && AS.IsPage(s, c) && AS.IsPage(t, c);
    }
    forall i | 0 <= i < AS.KERNEL_FIRST ensures AS.TableWritable(t, d, i) {
      assert AS.TableWritable(s, d, i) && AS.TableKept(s, t, d, i);
    }
  }

  /** Page m from the one of addr on is mapped and open to user mode, and record base + m holds `unit` times
      its block number. */
  ghost predicate PageDone(s: AS.Spaces, addr: int, m: int, records: seq<int>, base: nat, unit: int) {
    && MappedAt(s, addr + PAGE_SIZE * m) && OpenTo(s, addr + PAGE_SIZE * m)
    && 0 <= base + m < |records| && records[base + m] == unit * FrameOf(s, addr + PAGE_SIZE * m)
  }

  ghost predicate PagesDone(s: AS.Spaces, addr: int, n: int, records: seq<int>, base: nat, unit: int) {
    |records| == base + n && forall m :: 0 <= m < n ==> PageDone(s, addr, m, records, base, unit)
  }

  /** The records hold `unit` times the number of the block behind address a. */
  ghost predicate RecordedAt(s: AS.Spaces, a: int, records: seq<int>, unit: int) {
    0 <= a < USER_END && unit * FrameOf(s, a) in records
  }

  ghost predicate Recorded(s: AS.Spaces, addr: int, n: int, records: seq<int>, unit: int) {
    forall a :: addr <= a < addr + n ==> RecordedAt(s, a, records, unit)
  }

  lemma OnePageMore(s: AS.Spaces, t: AS.Spaces, addr: int, n: nat, records: seq<int>, base: nat, unit: int)
    requires Grown(s, t) && s.active in s.dirs && PagesDone(s, addr, n, records, base, unit)
    requires MappedAt(t, addr + PAGE_SIZE * n) && OpenTo(t, addr + PAGE_SIZE * n)
    ensures PagesDone(t, addr, n + 1, records + [unit * FrameOf(t, addr + PAGE_SIZE * n)], base, unit)
  {
    var more := records + [unit * FrameOf(t, addr + PAGE_SIZE * n)];
    forall m | 0 <= m < n + 1 ensures PageDone(t, addr, m, more, base, unit) {
      if m < n {
        assert PageDone(s, addr, m, records, base, unit);
        GrownTranslate(s, t, addr + PAGE_SIZE * m);
        GrownOpen(s, t, addr + PAGE_SIZE * m);
      }
    }
  }

  /** Pages stepped through from an unaligned address cover everything up to the last step. */
  lemma StepsCover(s: AS.Spaces, addr: int, n: nat, size: nat, records: seq<int>, base: nat, unit: int)
    requires PagesDone(s, addr, n, records, base, unit) && size <= PAGE_SIZE * (n - 1) && addr + size <= USER_END
    ensures AllMapped(s, addr, size) && AllOpen(s, addr, size) && Recorded(s, addr, size, records, unit)
  {
    forall a | addr <= a < addr + size ensures MappedAt(s, a) && OpenTo(s, a) && RecordedAt(s, a, records, unit) {
      var m := a / PAGE_SIZE - addr / PAGE_SIZE;
      assert 0 <= m < n && PageDone(s, addr, m, records, base, unit);
      OnePage(a, addr + PAGE_SIZE * m);
    }
  }

  /** From an aligned address they cover the last page too. */
  lemma AlignedSteps(s: AS.Spaces, addr: int, n: nat, records: seq<int>, base: nat, unit: int)
    requires PagesDone(s, addr, n, records, base, unit) && addr % PAGE_SIZE == 0 && addr + PAGE_SIZE * n <= USER_END
    ensures AllMapped(s, addr, PAGE_SIZE * n) && AllOpen(s, addr, PAGE_SIZE * n)
  {
    forall a | addr <= a < addr + PAGE_SIZE * n ensures MappedAt(s, a) && OpenTo(s, a) {
      var m := (a - addr) / PAGE_SIZE;
      PagesOn(addr, a, n);
      assert PageDone(s, addr, m, records, base, unit);
      OnePage(a, addr + PAGE_SIZE * m);
    }
  }

  lemma PagesOn(addr: int, a: int, n: int)
    requires addr % PAGE_SIZE == 0 && addr <= a < addr + PAGE_SIZE * n
    ensures var m := (a - addr) / PAGE_SIZE; 0 <= m < n && a / PAGE_SIZE == (addr + PAGE_SIZE * m) / PAGE_SIZE
  {
  }

  lemma OnePage(a: Address, b: Address)
    requires a / PAGE_SIZE == b / PAGE_SIZE
    ensures DirIndex(a) == DirIndex(b) && TableIndex(a) == TableIndex(b)
  {
    assert a / 0x40_0000 == a / PAGE_SIZE / ENTRIES && b / 0x40_0000 == b / PAGE_SIZE / ENTRIES;
  }

  /** Backing pages that were not mapped keeps every user page backed. */
  lemma Growth(s: AS.Spaces, t: AS.Spaces, touched: set<AS.Key>)
    requires s.active in s.dirs && AS.Backed(s, s.active) && t.active == s.active && t.dirs == s.dirs
    requires AS.Keeps(s, t, touched) && AS.OpenKept(s, t) && s.committed + touched <= t.committed
    requires AS.HasTable(s, AS.TEMP_DIR) ==> AS.HasTable(t, AS.TEMP_DIR)
    requires forall c :: c in touched ==> AS.PageAt(s, c).Unmapped? && AS.LeafAt(t, c).writable
    requires AS.TablesKept(s, t)
    ensures AS.Backed(t, t.active) && Grown(s, t)
  {
    forall c | AS.IsPage(s, c) && AS.PageAt(s, c).Mapped? ensures AS.SameAt(s, t, c) { assert AS.IsPage(t, c); }
    forall c | AS.IsPage(s, c) && AS.PageAt(s, c).Unmapped? && AS.PageAt(t, c).Mapped?
      ensures c in t.committed && AS.LeafAt(t, c).writable
    {
      assert AS.IsPage(t, c);
    }
    GrownBacked(s, t, s.active);
  }

  /** A mapped user page allows writing. */
  lemma BackedWritable(s: AS.Spaces, a: int)
    requires AS.Backed(s, s.active) && MappedAt(s, a)
    ensures AS.WritableAt(s, AS.Key(s.active, DirIndex(a), TableIndex(a)))
  {
    assert AS.PageBacked(s, s.active, DirIndex(a), TableIndex(a)) && AS.TableWritable(s, s.active, DirIndex(a));
  }

  /** The block behind a mapped user page is not block 0 and lies below 2 GiB. */
  lemma BackedFrame(s: AS.Spaces, used: set<int>, limit: int, a: int)
    requires AS.Inv(s, used, limit) && AS.Backed(s, s.active) && MappedAt(s, a)
    ensures 0 < FrameOf(s, a) < TOP
  {
    assert AS.PageBacked(s, s.active, DirIndex(a), TableIndex(a));
    assert AS.CommitOk(s, AS.Key(s.active, DirIndex(a), TableIndex(a)));
    assert AS.BlockOk(s, used, limit, FrameOf(s, a));
  }

  /** Different user addresses are different bytes of memory. */
  lemma Unaliased(s: AS.Spaces, used: set<int>, limit: int, a: int, b: int)
    requires AS.Inv(s, used, limit) && AS.Backed(s, s.active) && MappedAt(s, a) && MappedAt(s, b) && a != b
    ensures FrameOf(s, a) != FrameOf(s, b) || a % PAGE_SIZE != b % PAGE_SIZE
  {
    var i, j, i', j' := DirIndex(a), TableIndex(a), DirIndex(b), TableIndex(b);
    assert AS.PageBacked(s, s.active, i, j) && AS.PageBacked(s, s.active, i', j');
    assert AS.Covered(s, s.active, i);
    AS.CommittedApart(s, used, limit, AS.Key(s.active, i, j), AS.Key(s.active, i', j'), s.active, i);
    SamePage(a, b);
  }

  lemma SamePage(a: Address, b: Address)
    ensures DirIndex(a) == DirIndex(b) && TableIndex(a) == TableIndex(b) && a % PAGE_SIZE == b % PAGE_SIZE ==> a == b
  {
  }

  // ----- byte stores -----

  function Stored(s: AS.Spaces, data: Bytes, a: Address, v: Byte): Bytes {
    data[(FrameOf(s, a), a % PAGE_SIZE) := v]
  }

  /** User addresses outside [lo, hi) show what they showed before. */
  ghost predicate ElseKept(s: AS.Spaces, data: Bytes, data': Bytes, lo: int, hi: int) {
    forall b, v :: !(lo <= b < hi) && ByteIs(s, data, b, v) ==> ByteIs(s, data', b, v)
  }

  ghost predicate SameByte(data: Bytes, data': Bytes, f: int, o: int) {
    ((f, o) in data <==> (f, o) in data') && ((f, o) in data ==> data'[(f, o)] == data[(f, o)])
  }

  /** No byte of a page that another address space or the kernel has committed changes. */
  ghost predicate ForeignKept(s: AS.Spaces, data: Bytes, data': Bytes) {
    forall c, o :: c in s.committed && c.space != s.active ==> SameByte(data, data', FrameIn(AS.PageAt(s, c)), o)
  }

  /** Block f is neither directory d nor the table its entry i installs. */
  ghost predicate NoTable(s: AS.Spaces, d: int, i: int, f: int) {
    f != d && (WordAt(s.ram, d, i).present ==> f != WordAt(s.ram, d, i).page)
  }

  lemma StoreByte(s: AS.Spaces, used: set<int>, limit: int, data: Bytes, a: int, v: Byte)
    requires AS.Inv(s, used, limit) && AS.Backed(s, s.active) && MappedAt(s, a)
    ensures var d := Stored(s, data, a, v);
            ByteIs(s, d, a, v) && ElseKept(s, data, d, a, a + 1) && ForeignKept(s, data, d)
    ensures forall e, i :: AS.Covered(s, e, i) ==> NoTable(s, e, i, FrameOf(s, a))
  {
    var d := Stored(s, data, a, v);
    forall b, w | b != a && ByteIs(s, data, b, w) ensures ByteIs(s, d, b, w) { Unaliased(s, used, limit, a, b); }
    forall e, i | AS.Covered(s, e, i) ensures NoTable(s, e, i, FrameOf(s, a)) {
      var c := AS.Key(s.active, DirIndex(a), TableIndex(a));
      assert AS.PageBacked(s, s.active, c.i, c.j);
      AS.CommittedApart(s, used, limit, c, c, e, i);
    }
    forall c, o | c in s.committed && c.space != s.active ensures SameByte(data, d, FrameIn(AS.PageAt(s, c)), o) {
      assert AS.PageBacked(s, s.active, DirIndex(a), TableIndex(a)) && AS.Covered(s, s.active, DirIndex(a));
      AS.CommittedApart(s, used, limit, AS.Key(s.active, DirIndex(a), TableIndex(a)), c, s.active, DirIndex(a));
    }
  }

  /** One more byte of a fill. */
  lemma FillStep(s: AS.Spaces, used: set<int>, limit: int, data: Bytes, d: Bytes, addr: int, bytes: seq<Byte>, k: nat)
    requires AS.Inv(s, used, limit) && AS.Backed(s, s.active) && k < |bytes| && MappedAt(s, addr + k)
    requires Holds(s, d, addr, bytes[..k]) && ElseKept(s, data, d, addr, addr + k) && ForeignKept(s, data, d)
    ensures var d' := Stored(s, d, addr + k, bytes[k]);
            Holds(s, d', addr, bytes[..k + 1]) && ElseKept(s, data, d', addr, addr + k + 1) && ForeignKept(s, data, d')
  {
    var d' := Stored(s, d, addr + k, bytes[k]);
    StoreByte(s, used, limit, d, addr + k, bytes[k]);
    forall m | 0 <= m < k + 1 ensures ByteIs(s, d', addr + m, bytes[m]) {
      assert m < k ==> ByteIs(s, d, addr + m, bytes[..k][m]);
    }
    forall c, o | c in s.committed && c.space != s.active ensures SameByte(data, d', FrameIn(AS.PageAt(s, c)), o) {
      assert SameByte(data, d, FrameIn(AS.PageAt(s, c)), o) && SameByte(d, d', FrameIn(AS.PageAt(s, c)), o);
    }
  }

  lemma HoldsElse(s: AS.Spaces, data: Bytes, data': Bytes, addr: int, bytes: seq<Byte>, lo: int, hi: int)
    requires Holds(s, data, addr, bytes) && ElseKept(s, data, data', lo, hi) && (addr + |bytes| <= lo || hi <= addr)
    ensures Holds(s, data', addr, bytes)
  {
    forall k | 0 <= k < |bytes| ensures ByteIs(s, data', addr + k, bytes[k])
    { assert ByteIs(s, data, addr + k, bytes[k]); }
  }

  lemma HoldsBoth(s: AS.Spaces, data: Bytes, addr: int, x: seq<Byte>, y: seq<Byte>)
    requires Holds(s, data, addr, x) && Holds(s, data, addr + |x|, y)
    ensures Holds(s, data, addr, x + y)
  {
    forall k | 0 <= k < |x + y| ensures ByteIs(s, data, addr + k, (x + y)[k]) {
      if k >= |x| { assert ByteIs(s, data, addr + |x| + (k - |x|), y[k - |x|]); }
    }
  }

  lemma KeptTwice(s: AS.Spaces, d0: Bytes, d1: Bytes, d2: Bytes, lo: int, mid: int, hi: int)
    requires lo <= mid <= hi && ElseKept(s, d0, d1, lo, mid) && ElseKept(s, d1, d2, mid, hi)
    requires ForeignKept(s, d0, d1) && ForeignKept(s, d1, d2)
    ensures ElseKept(s, d0, d2, lo, hi) && ForeignKept(s, d0, d2)
  {
    forall c, o | c in s.committed && c.space != s.active ensures SameByte(d0, d2, FrameIn(AS.PageAt(s, c)), o) {
      assert SameByte(d0, d1, FrameIn(AS.PageAt(s, c)), o) && SameByte(d1, d2, FrameIn(AS.PageAt(s, c)), o);
    }
  }

  lemma ForeignGrown(s: AS.Spaces, t: AS.Spaces, used: set<int>, limit: int, d0: Bytes, d1: Bytes, d2: Bytes)
    requires AS.Inv(s, used, limit) && Grown(s, t) && ForeignKept(s, d0, d1) && ForeignKept(t, d1, d2)
    ensures ForeignKept(s, d0, d2)
  {
    forall c, o | c in s.committed && c.space != s.active ensures SameByte(d0, d2, FrameIn(AS.PageAt(s, c)), o) {
      assert AS.CommitOk(s, c) && AS.PageAt(t, c) == AS.PageAt(s, c);
      assert SameByte(d0, d1, FrameIn(AS.PageAt(s, c)), o) && SameByte(d1, d2, FrameIn(AS.PageAt(t, c)), o);
    }
  }

  // ----- programs -----

  /** Segment i can be loaded: file bytes present and no more than the memory size, and room for the
      segment and the extra page below the kernel. */
  predicate Fitting(image: seq<Byte>, i: nat)
    requires Complete(image) && Accepted(image) && i < Count(image)
  {
    var g := SegmentOf(image, i);
    && IsLoad(image, i) && g.fileSize <= g.memSize && g.offset + g.fileSize <= |image|
    && g.addr + g.memSize + PAGE_SIZE <= USER_END
  }

  predicate Disjoint(image: seq<Byte>, i: nat, k: nat)
    requires Complete(image) && Accepted(image) && i < Count(image) && k < Count(image)
  {
    var g, h := SegmentOf(image, i), SegmentOf(image, k);
    g.addr + g.memSize <= h.addr || h.addr + h.memSize <= g.addr
  }

  ghost predicate Loadable(image: seq<Byte>) {
    && Complete(image)
    && (Accepted(image) ==>
          && (forall i: nat :: i < Count(image) ==> Fitting(image, i))
          && (forall i: nat, k: nat :: i < k < Count(image) ==> Disjoint(image, i, k)))
  }

  /** The file's bytes, then zeros up to the memory size (System V ABI, chapter 5, Program Header). */
  function Contents(image: seq<Byte>, g: Segment): seq<Byte>
    requires g.fileSize <= g.memSize && g.offset + g.fileSize <= |image|
  {
    image[g.offset..g.offset + g.fileSize] + seq(g.memSize - g.fileSize, _ => 0)
  }

  /** Byte k of a segment is the file's byte at its offset plus k, or 0 past the file size. */
  lemma ContentsAt(image: seq<Byte>, g: Segment, k: nat)
    requires g.fileSize <= g.memSize && g.offset + g.fileSize <= |image| && k < g.memSize
    ensures |Contents(image, g)| == g.memSize
    ensures Contents(image, g)[k] == if k < g.fileSize then image[g.offset + k] else 0
  {
  }

  ghost predicate SegmentDone(s: AS.Spaces, data: Bytes, image: seq<Byte>, i: nat)
    requires Complete(image) && Accepted(image) && i < Count(image) && Fitting(image, i)
  {
    var g := SegmentOf(image, i);
    Holds(s, data, g.addr, Contents(image, g)) && AllOpen(s, g.addr, g.memSize)
  }

  ghost predicate SegmentsDone(s: AS.Spaces, data: Bytes, image: seq<Byte>, n: nat)
    requires Loadable(image) && Accepted(image) && n <= Count(image)
  {
    forall i: nat :: i < n ==> SegmentDone(s, data, image, i)
  }

  /** The records hold the address of the block behind every address of the first n segments. */
  ghost predicate SegmentsRecorded(s: AS.Spaces, image: seq<Byte>, n: nat, records: seq<int>)
    requires Loadable(image) && Accepted(image) && n <= Count(image)
  {
    forall i: nat :: i < n ==> SegmentRecorded(s, image, i, records)
  }

  ghost predicate SegmentRecorded(s: AS.Spaces, image: seq<Byte>, i: nat, records: seq<int>)
    requires Complete(image) && Accepted(image) && i < Count(image)
  {
    var g := SegmentOf(image, i); Recorded(s, g.addr, g.memSize, records, PAGE_SIZE)
  }

  /** They still do once another segment has been loaded and recorded. */
  lemma OneRecordMore(s: AS.Spaces, t: AS.Spaces, data: Bytes, image: seq<Byte>, n: nat, records: seq<int>,
                      records': seq<int>)
    requires Loadable(image) && Accepted(image) && n < Count(image) && SegmentsDone(s, data, image, n)
    requires Grown(s, t) && s.active in s.dirs && records <= records'
    requires SegmentsRecorded(s, image, n, records) && SegmentRecorded(t, image, n, records')
    ensures SegmentsRecorded(t, image, n + 1, records')
  {
    forall i: nat | i < n ensures SegmentRecorded(t, image, i, records') {
      assert Fitting(image, i) && SegmentDone(s, data, image, i) && SegmentRecorded(s, image, i, records);
      var g := SegmentOf(image, i);
      forall a | g.addr <= a < g.addr + g.memSize ensures RecordedAt(t, a, records', PAGE_SIZE) {
        assert RecordedAt(s, a, records, PAGE_SIZE) && OpenTo(s, a);
        GrownTranslate(s, t, a);
      }
    }
  }

  /** A loaded program with a page in a block whose number is a multiple of 256 takes memory down when it exits. */
  lemma LoadedExitBreaks(limit: nat, s: SystemRuns.System, image: seq<Byte>, kept: seq<int>, records: seq<nat>,
                         i: nat, a: int)
    requires SystemRuns.SystemInv(limit, s) && CanExit(s.sched) && AS.Backed(s.mem.spaces, s.mem.spaces.active)
    requires Loadable(image) && Accepted(image) && i < Count(image)
    requires SegmentsRecorded(s.mem.spaces, image, Count(image), kept) && forall r :: r in kept ==> r in records
    requires var g := SegmentOf(image, i); g.addr <= a < g.addr + g.memSize
    requires MappedAt(s.mem.spaces, a) && FrameOf(s.mem.spaces, a) % 256 == 0
    ensures !SystemRuns.SystemInv(limit, SystemRuns.ExitDone(limit, s, records))
  {
    assert SegmentRecorded(s.mem.spaces, image, i, kept) && RecordedAt(s.mem.spaces, a, kept, PAGE_SIZE);
    BackedFrame(s.mem.spaces, s.mem.used, limit, a);
    var k :| 0 <= k < |records| && records[k] == PAGE_SIZE * FrameOf(s.mem.spaces, a);
    SystemRuns.SegmentExitBreaks(limit, s, records, k, FrameOf(s.mem.spaces, a));
  }

  /** Loading segment n on top of the first n disturbs none of them. */
  lemma OneSegmentMore(s: AS.Spaces, t: AS.Spaces, data: Bytes, data': Bytes, image: seq<Byte>, n: nat)
    requires Loadable(image) && Accepted(image) && n < Count(image) && SegmentsDone(s, data, image, n)
    requires Grown(s, t) && s.active in s.dirs && SegmentDone(t, data', image, n)
    requires var g := SegmentOf(image, n); ElseKept(t, data, data', g.addr, g.addr + g.memSize)
    ensures SegmentsDone(t, data', image, n + 1)
  {
    forall i: nat | i < n + 1 ensures SegmentDone(t, data', image, i) {
      if i < n {
        assert Fitting(image, i) && Disjoint(image, i, n) && SegmentDone(s, data, image, i);
        StillDone(s, t, data, data', image, i, n);
      }
    }
  }

  lemma StillDone(s: AS.Spaces, t: AS.Spaces, data: Bytes, data': Bytes, image: seq<Byte>, i: nat, n: nat)
    requires Complete(image) && Accepted(image) && i < Count(image) && n < Count(image)
    requires Fitting(image, i) && Disjoint(image, i, n) && SegmentDone(s, data, image, i)
    requires Grown(s, t) && s.active in s.dirs
    requires var g := SegmentOf(image, n); ElseKept(t, data, data', g.addr, g.addr + g.memSize)
    ensures SegmentDone(t, data', image, i)
  {
    var g, h := SegmentOf(image, n), SegmentOf(image, i);
    GrownHolds(s, t, data, h.addr, Contents(image, h));
    forall a | h.addr <= a < h.addr + h.memSize ensures OpenTo(t, a) { GrownOpen(s, t, a); }
    HoldsElse(t, data, data', h.addr, Contents(image, h), g.addr, g.addr + g.memSize);
  }

  // ----- stacks and records -----

  /** The lowest address of a thread's stack. */
  function StackBase(id: nat): (a: nat)
    requires 0 < id && STACK_SIZE * id <= USER_END
    ensures a % PAGE_SIZE == 0 && a + STACK_SIZE <= USER_END
  {
    StackPages(id);
    USER_END - STACK_SIZE * id
  }

  lemma StackPages(id: nat)
    ensures (USER_END - STACK_SIZE * id) % PAGE_SIZE == 0
  {
    assert USER_END - STACK_SIZE * id == PAGE_SIZE * (0xC_0000 - 2 * id);
  }

  /** The stacks of threads with different ids share no address. */
  lemma StacksApart(id: nat, id': nat)
    requires 0 < id < id' && STACK_SIZE * id' <= USER_END
    ensures StackBase(id') + STACK_SIZE <= StackBase(id)
  {
  }

  class Loader {
    const vm: AS.VirtualMemory
    var data: Bytes
    var processRecords: seq<int> // the process's pmemRegions
    var threadRecords: seq<int> // the thread's pmemRegions

    constructor (vm: AS.VirtualMemory)
      ensures this.vm == vm && data == map[] && processRecords == [] && threadRecords == []
    {
      this.vm, data, processRecords, threadRecords := vm, map[], [], [];
    }

    ghost predicate Ready()
      reads vm, vm.frames, vm.frames.bitmap
    {
      vm.Valid() && AS.Backed(vm.View(), vm.currentDirectory)
    }

    /** memcpy and memset to user memory: stores `bytes` at addr. */
    method Fill(addr: int, bytes: seq<Byte>)
      requires Ready() && AllMapped(vm.View(), addr, |bytes|)
      modifies this`data
      ensures Holds(vm.View(), data, addr, bytes)
      ensures ElseKept(vm.View(), old(data), data, addr, addr + |bytes|) && ForeignKept(vm.View(), old(data), data)
    {
      ghost var s := vm.View();
      for k := 0 to |bytes|
        invariant Holds(s, data, addr, bytes[..k])
        invariant ElseKept(s, old(data), data, addr, addr + k) && ForeignKept(s, old(data), data)
      {
        assert MappedAt(s, addr + k);
        FillStep(s, vm.frames.Used(), vm.frames.maxBlocks, old(data), data, addr, bytes, k);
        var t := Translate(vm.ram, vm.currentDirectory, addr + k);
        data := data[(FrameIn(t), (addr + k) % PAGE_SIZE) := bytes[k]];
      }
      assert bytes[..|bytes|] == bytes;
    }

    /** One turn of the mapping loops: backs the page at virt and opens it to user mode. */
    method BackPage(virt: int) returns (ret: int, phys: int)
      requires Ready() && 0 <= virt < USER_END
      modifies vm, vm.frames`usedBlocks, vm.frames.bitmap
      ensures Ready() && Grown(old(vm.View()), vm.View())
      ensures ret == SUCCESS || (ret == ERR_OUT_OF_MEMORY && vm.NoBlock())
      ensures ret == SUCCESS ==>
                MappedAt(vm.View(), virt) && phys == FrameOf(vm.View(), virt) && OpenTo(vm.View(), virt)
    {
      var ok := AllocUser(virt);
      if !ok { return ERR_OUT_OF_MEMORY, 0; }
      phys := vm.GetPhysicalAddress(virt);
      BackedFrame(vm.View(), vm.frames.Used(), vm.frames.maxBlocks, virt);
      if phys == 0 { return ERR_UNKNOWN, 0; }
      ghost var s := vm.View();
      OpenUser(virt);
      GrownTwice(old(vm.View()), s, vm.View());
      ret := SUCCESS;
    }

    /** Turn n of a mapping loop that started at addr with the address spaces s0. */
    method StepPage(virt: int, ghost addr: nat, ghost n: nat, ghost s0: AS.Spaces, ghost records: seq<int>,
                    ghost base: nat, ghost unit: int)
      returns (ret: int, phys: int)
      requires Ready() && Grown(s0, vm.View()) && PagesDone(vm.View(), addr, n, records, base, unit)
      requires virt == addr + PAGE_SIZE * n < USER_END
      modifies vm, vm.frames`usedBlocks, vm.frames.bitmap
      ensures Ready() && Grown(s0, vm.View())
      ensures ret == SUCCESS || (ret == ERR_OUT_OF_MEMORY && vm.NoBlock())
      ensures ret == SUCCESS ==> PagesDone(vm.View(), addr, n + 1, records + [unit * phys], base, unit)
    {
      ghost var before := vm.View();
      ret, phys := BackPage(virt);
      GrownTwice(s0, before, vm.View());
      if ret == SUCCESS { OnePageMore(before, vm.View(), addr, n, records, base, unit); }
    }

    method AllocUser(virt: int) returns (ok: bool)
      requires Ready() && 0 <= virt < USER_END
      modifies vm, vm.frames`usedBlocks, vm.frames.bitmap
      ensures Ready() && Grown(old(vm.View()), vm.View()) && if ok then MappedAt(vm.View(), virt) else vm.NoBlock()
    {
      ghost var s := vm.View();
      ok := vm.AllocPage(virt);
      if vm.View() != s {
        Growth(s, vm.View(), if ok then {AS.Key(s.active, DirIndex(virt), TableIndex(virt))} else {});
      }
    }

    method OpenUser(virt: int)
      requires Ready() && MappedAt(vm.View(), virt)
      modifies vm`ram
      ensures Ready() && Grown(old(vm.View()), vm.View())
      ensures MappedAt(vm.View(), virt) && FrameOf(vm.View(), virt) == FrameOf(old(vm.View()), virt)
      ensures OpenTo(vm.View(), virt)
    {
      ghost var s := vm.View();
      vm.MarkUser(virt);
      Growth(s, vm.View(), {});
      GrownTranslate(s, vm.View(), virt);
      BackedWritable(vm.View(), virt);
    }

    /** The mapping loop of setup_process: a page more than the segment's size rounded up. */
    method MapSegment(addr: nat, memSize: nat) returns (ret: int)
      requires Ready() && addr + memSize + PAGE_SIZE <= USER_END
      modifies this`processRecords, vm, vm.frames`usedBlocks, vm.frames.bitmap
      ensures Ready() && Grown(old(vm.View()), vm.View())
      ensures ret == SUCCESS || (ret == ERR_OUT_OF_MEMORY && vm.NoBlock())
      ensures ret == SUCCESS ==> AllMapped(vm.View(), addr, memSize) && AllOpen(vm.View(), addr, memSize)
      ensures ret == SUCCESS ==>
                PagesDone(vm.View(), addr, |processRecords| - |old(processRecords)|, processRecords,
                          |old(processRecords)|, PAGE_SIZE)
      ensures old(processRecords) <= processRecords
      ensures ret == SUCCESS ==> |processRecords| == |old(processRecords)| + (memSize + 2 * PAGE_SIZE - 1) / PAGE_SIZE
      ensures ret == SUCCESS ==> Recorded(vm.View(), addr, memSize, processRecords, PAGE_SIZE)
    {
      var sizeToMap := memSize + PAGE_SIZE;
      if sizeToMap % PAGE_SIZE != 0 {
        sizeToMap := sizeToMap + PAGE_SIZE;
        sizeToMap := sizeToMap - sizeToMap % PAGE_SIZE;
      }
      var j := 0;
      ghost var s, n, base := vm.View(), 0, |processRecords|;
      while j < sizeToMap
        invariant j == PAGE_SIZE * n && 0 <= j <= sizeToMap
        invariant Ready() && Grown(s, vm.View())
        invariant PagesDone(vm.View(), addr, n, processRecords, base, PAGE_SIZE)
        invariant old(processRecords) <= processRecords
      {
        var phys;
        ret, phys := StepPage(addr + j, addr, n, s, processRecords, base, PAGE_SIZE);
        if ret != SUCCESS { return; }
        processRecords := processRecords + [PAGE_SIZE * phys];
        j := j + PAGE_SIZE;
        n := n + 1;
      }
      StepsCover(vm.View(), addr, n, memSize, processRecords, base, PAGE_SIZE);
      ret := SUCCESS;
    }

    /** init_thread_stack: two pages below 0xC0000000, by thread id. */
    method InitThreadStack(id: nat) returns (ret: int, top: int)
      requires Ready() && 0 < id && STACK_SIZE * id <= USER_END
      modifies this`threadRecords, vm, vm.frames`usedBlocks, vm.frames.bitmap
      ensures Ready() && Grown(old(vm.View()), vm.View())
      ensures ret == SUCCESS || (ret == ERR_OUT_OF_MEMORY && vm.NoBlock())
      ensures ret == SUCCESS ==> top == StackBase(id) + STACK_SIZE == 0xC000_0000 - 8192 * (id - 1)
      ensures ret == SUCCESS ==>
                AllMapped(vm.View(), StackBase(id), STACK_SIZE) && AllOpen(vm.View(), StackBase(id), STACK_SIZE)
      ensures ret == SUCCESS ==> PagesDone(vm.View(), StackBase(id), 2, threadRecords, |old(threadRecords)|, 1)
    {
      var stackAddr := StackBase(id);
      ret := BackStack(stackAddr);
      top := stackAddr + STACK_SIZE;
    }

    /** The loop of init_thread_stack. */
    method BackStack(stackAddr: nat) returns (ret: int)
      requires Ready() && stackAddr % PAGE_SIZE == 0 && stackAddr + STACK_SIZE <= USER_END
      modifies this`threadRecords, vm, vm.frames`usedBlocks, vm.frames.bitmap
      ensures Ready() && Grown(old(vm.View()), vm.View())
      ensures ret == SUCCESS || (ret == ERR_OUT_OF_MEMORY && vm.NoBlock())
      ensures ret == SUCCESS ==>
                AllMapped(vm.View(), stackAddr, STACK_SIZE) && AllOpen(vm.View(), stackAddr, STACK_SIZE)
      ensures ret == SUCCESS ==> PagesDone(vm.View(), stackAddr, 2, threadRecords, |old(threadRecords)|, 1)
    {
      var addr := stackAddr;
      ghost var s, n, base := vm.View(), 0, |threadRecords|;
      while addr < stackAddr + STACK_SIZE
        invariant addr == stackAddr + PAGE_SIZE * n && 0 <= n <= 2
        invariant Ready() && Grown(s, vm.View())
        invariant PagesDone(vm.View(), stackAddr, n, threadRecords, base, 1)
      {
        var phys;
        ret, phys := StepPage(addr, stackAddr, n, s, threadRecords, base, 1);
        if ret != SUCCESS { return; }
        threadRecords := threadRecords + [phys];
        addr := addr + PAGE_SIZE;
        n := n + 1;
      }
      AlignedSteps(vm.View(), stackAddr, 2, threadRecords, base, 1);
      ret := SUCCESS;
    }

    /** The copying and zeroing at the end of a turn of setup_process. */
    method FillSegment(image: seq<Byte>, g: Segment)
      requires Ready() && g.fileSize <= g.memSize && g.offset + g.fileSize <= |image|
      requires AllMapped(vm.View(), g.addr, g.memSize)
      modifies this`data
      ensures Holds(vm.View(), data, g.addr, Contents(image, g))
      ensures ElseKept(vm.View(), old(data), data, g.addr, g.addr + g.memSize)
              && ForeignKept(vm.View(), old(data), data)
    {
      ghost var s, d0, x := vm.View(), data, image[g.offset..g.offset + g.fileSize];
      Fill(g.addr, image[g.offset..g.offset + g.fileSize]);
      var zeroSpace := g.memSize - g.fileSize;
      if zeroSpace > 0 {
        ghost var d1 := data;
        Fill(g.addr + g.fileSize, seq(zeroSpace, _ => 0));
        HoldsElse(s, d1, data, g.addr, x, g.addr + g.fileSize, g.addr + g.memSize);
        HoldsBoth(s, data, g.addr, x, seq(zeroSpace, _ => 0));
        KeptTwice(s, d0, d1, data, g.addr, g.addr + g.fileSize, g.addr + g.memSize);
      } else {
        assert Contents(image, g) == x;
      }
    }

    /** setup_process. On success every segment is mapped and holds its file bytes and then zeros; whatever
        happens, no mapped page moves and no byte of another address space changes. */
    method Setup(image: seq<Byte>, segs: array<Segment>) returns (ret: int, entryPoint: int)
      requires Ready() && Loadable(image) && segs.Length == EXE_MAX_SEGMENTS
      modifies segs, this`data, this`processRecords, vm, vm.frames`usedBlocks, vm.frames.bitmap
      ensures Ready() && Grown(old(vm.View()), vm.View()) && ForeignKept(old(vm.View()), old(data), data)
      ensures ret == ERR_INVALID_ELF_EXECUTABLE <==> !Accepted(image)
      ensures ret == ERR_INVALID_ELF_EXECUTABLE || ret == SUCCESS || (ret == ERR_OUT_OF_MEMORY && vm.NoBlock())
      ensures ret == SUCCESS ==> entryPoint == EntryPoint(image) && SegmentsDone(vm.View(), data, image, Count(image))
      ensures ret == SUCCESS ==> SegmentsRecorded(vm.View(), image, Count(image), processRecords)
    {
      var err, numSegs;
      err, numSegs, entryPoint := Parse(image, segs);
      if err != 0 { return ERR_INVALID_ELF_EXECUTABLE, 0; }
      forall k: nat | k < numSegs ensures segs[k] == SegmentOf(image, k) { assert Fitting(image, k); }
      ghost var s0, used0, limit0, d0 := vm.View(), vm.frames.Used(), vm.frames.maxBlocks, data;
      for i := 0 to numSegs
        invariant Ready() && Grown(s0, vm.View()) && ForeignKept(s0, d0, data)
        invariant SegmentsDone(vm.View(), data, image, i) && SegmentsRecorded(vm.View(), image, i, processRecords)
        invariant forall k: nat :: k < numSegs ==> segs[k] == SegmentOf(image, k)
      {
        assert Fitting(image, i);
        ret := LoadSegment(image, segs[i], i, s0, used0, limit0, d0);
        if ret != SUCCESS { return; }
      }
      ret := SUCCESS;
    }

    /** One turn of setup_process. */
    method LoadSegment(image: seq<Byte>, g: Segment, ghost i: nat, ghost s0: AS.Spaces, ghost used0: set<int>,
                       ghost limit0: int, ghost d0: Bytes)
      returns (ret: int)
      requires Ready() && Loadable(image) && Accepted(image) && i < Count(image) && g == SegmentOf(image, i)
      requires Fitting(image, i) && SegmentsDone(vm.View(), data, image, i)
      requires SegmentsRecorded(vm.View(), image, i, processRecords)
      requires AS.Inv(s0, used0, limit0) && Grown(s0, vm.View()) && ForeignKept(s0, d0, data)
      modifies this`data, this`processRecords, vm, vm.frames`usedBlocks, vm.frames.bitmap
      ensures Ready() && Grown(s0, vm.View()) && ForeignKept(s0, d0, data)
      ensures ret == SUCCESS || (ret == ERR_OUT_OF_MEMORY && vm.NoBlock())
      ensures ret == SUCCESS ==> SegmentsDone(vm.View(), data, image, i + 1)
      ensures ret == SUCCESS ==> SegmentsRecorded(vm.View(), image, i + 1, processRecords)
    {
      ghost var s, d := vm.View(), data;
      ret := MapSegment(g.addr, g.memSize);
      GrownTwice(s0, s, vm.View());
      if ret != SUCCESS { return; }
      OneRecordMore(s, vm.View(), d, image, i, old(processRecords), processRecords);
      FillSegment(image, g);
      OneSegmentMore(s, vm.View(), d, data, image, i);
      ForeignGrown(s0, vm.View(), used0, limit0, d0, d, data);
    }
  }
}
