/** Whole runs of both allocators: what every sequence of calls keeps. */
module HeapRuns {
  import opened Blocks
  import opened HeaderMemory
  import opened KernelMalloc
  import opened Requests
  import opened UserMalloc

  // ----- live allocations against the block list -----

  /** A used block has its header at `a` and at least n payload bytes. */
  ghost predicate Holds(ranges: set<(int, int)>, a: int, n: int) {
    exists e :: (a, e) in ranges && a + HEADER + n <= e
  }

  /** Every live pointer owns a used block with the bytes asked for. */
  ghost predicate LiveIn(bs: seq<Block>, end: int, live: map<int, int>) {
    forall p :: p in live ==> Holds(Extents(bs, end), p - HEADER, live[p])
  }

  predicate Disjoint(a: int, m: int, b: int, n: int) {
    a + m <= b || b + n <= a
  }

  /** What a client relies on: live payloads lie inside the heap, off every header and off each other. */
  ghost predicate ClientsSafe(bs: seq<Block>, start: int, end: int, live: map<int, int>) {
    && (forall p :: p in live ==> start + HEADER <= p && p + live[p] <= end)
    && (forall p, i :: p in live && 0 <= i < |bs| ==> Disjoint(p, live[p], bs[i].addr, HEADER))
    && (forall p, q :: p in live && q in live && p != q ==> Disjoint(p, live[p], q, live[q]))
  }

  lemma ExtentClear(bs: seq<Block>, start: int, end: int, gap: nat, i: nat, k: nat)
    requires Tiled(bs, start, end, gap) && i < |bs| && k < |bs|
    ensures start <= bs[i].addr && EndOf(bs, end, i) <= end
    ensures bs[k].addr <= bs[i].addr || EndOf(bs, end, i) <= bs[k].addr
    ensures bs[k].addr < bs[i].addr ==> EndOf(bs, end, k) <= bs[i].addr
  {
    InHeap(bs, start, end, gap, i);
    assert i + 1 < k ==> Apart(bs, i + 1, k, gap);
    assert i < k ==> Apart(bs, i, k, gap);
    assert k < i ==> Apart(bs, k, i, gap);
    assert k + 1 < i ==> Apart(bs, k + 1, i, gap);
  }

  lemma Owner(bs: seq<Block>, end: int, live: map<int, int>, p: int) returns (i: nat)
    requires LiveIn(bs, end, live) && p in live
    ensures i < |bs| && bs[i].used && bs[i].addr == p - HEADER && p + live[p] <= EndOf(bs, end, i)
  {
    assert Holds(Extents(bs, end), p - HEADER, live[p]);
    var e :| (p - HEADER, e) in Extents(bs, end) && p + live[p] <= e;
    i :| 0 <= i < |bs| && bs[i].used && (bs[i].addr, EndOf(bs, end, i)) == (p - HEADER, e);
  }

  lemma LiveIsSafe(bs: seq<Block>, start: int, end: int, gap: nat, live: map<int, int>)
    requires Tiled(bs, start, end, gap) && LiveIn(bs, end, live)
    ensures ClientsSafe(bs, start, end, live)
  {
    forall p | p in live ensures start + HEADER <= p && p + live[p] <= end {
      var i := Owner(bs, end, live, p);
      ExtentClear(bs, start, end, gap, i, i);
    }
    forall p, k | p in live && 0 <= k < |bs| ensures Disjoint(p, live[p], bs[k].addr, HEADER) {
      var i := Owner(bs, end, live, p);
      ExtentClear(bs, start, end, gap, i, k);
    }
    forall p, q | p in live && q in live && p != q ensures Disjoint(p, live[p], q, live[q]) {
      var i := Owner(bs, end, live, p);
      var j := Owner(bs, end, live, q);
      ExtentClear(bs, start, end, gap, i, j);
      ExtentClear(bs, start, end, gap, j, i);
    }
  }

  lemma MoreRanges(bs: seq<Block>, end: int, bs': seq<Block>, end': int, live: map<int, int>)
    requires LiveIn(bs, end, live) && Extents(bs, end) <= Extents(bs', end')
    ensures LiveIn(bs', end', live)
  {
    forall p | p in live ensures Holds(Extents(bs', end'), p - HEADER, live[p]) {
      assert Holds(Extents(bs, end), p - HEADER, live[p]);
    }
  }

  /** Carving a free block leaves every live allocation in place and hands out a pointer none of them has. */
  lemma CarveLive(bs: seq<Block>, start: int, end: int, gap: nat, i: nat, bytes: int, live: map<int, int>, n: int)
    requires Tiled(bs, start, end, gap) && LiveIn(bs, end, live)
    requires i < |bs| && Fits(bs, end, i, bytes) && n <= bytes
    ensures bs[i].addr + HEADER !in live
    ensures LiveIn(Carve(bs, end, i, bytes), end, live[bs[i].addr + HEADER := n])
  {
    var p, r := bs[i].addr + HEADER, Carve(bs, end, i, bytes);
    if p in live {
      var k := Owner(bs, end, live, p);
      SameIndex(bs, start, end, gap, i, k);
    }
    CarveExtents(bs, end, i, bytes);
    CarvePayload(bs, end, i, bytes);
    MoreRanges(bs, end, r, end, live);
    assert Holds(Extents(r, end), p - HEADER, n);
    forall q | q in live ensures Holds(Extents(r, end), q - HEADER, live[q]) {}
  }

  /** Freeing one pointer leaves every other live allocation in place. */
  lemma ReleaseLive(bs: seq<Block>, start: int, end: int, gap: nat, live: map<int, int>, p: int)
    requires Tiled(bs, start, end, gap) && Coalesced(bs) && LiveIn(bs, end, live) && p in live
    ensures IsUsed(bs, p - HEADER)
    ensures LiveIn(Release(bs, IndexOf(bs, p - HEADER)), end, live - {p})
  {
    var i := Owner(bs, end, live, p);
    UsedBlock(bs, i);
    var r := ReleaseUsed(bs, start, end, gap, p - HEADER);
    forall q | q in live - {p} ensures Holds(Extents(r, end), q - HEADER, live[q]) {
      assert Holds(Extents(bs, end), q - HEADER, live[q]);
    }
  }

  /** Releasing the block just carved gives the list back. */
  lemma CarvedIndex(bs: seq<Block>, start: int, end: int, gap: nat, i: nat, n: int)
    requires Tiled(bs, start, end, gap) && Coalesced(bs) && i < |bs|
    requires gap <= MIN_PAYLOAD && gap <= n && Fits(bs, end, i, n)
    ensures var r := Carve(bs, end, i, n);
            IsUsed(r, bs[i].addr) && Release(r, IndexOf(r, bs[i].addr)) == bs
  {
    var r := Carve(bs, end, i, n);
    CarveTiled(bs, start, end, gap, i, n);
    CarvePayload(bs, end, i, n);
    CarveThenRelease(bs, start, end, gap, i, n);
    UsedBlock(r, i);
    SameIndex(r, start, end, gap, i, IndexOf(r, bs[i].addr));
  }

  // ----- the kernel heap -----

  datatype KernelState = KernelState(blocks: seq<Block>, live: map<int, int>)

  datatype KernelCall =
    | Kmalloc(bytes: Word, grants: int -> bool)
    | Kfree(address: int)

  ghost predicate KernelInv(start: int, s: KernelState) {
    KernelShape(s.blocks, start) && LiveIn(s.blocks, KHEAP_END, s.live) && SENTINEL + HEADER !in s.live
  }

  /** Only live pointers may be freed. */
  predicate KernelLegal(s: KernelState, c: KernelCall) {
    c.Kfree? ==> c.address in s.live
  }

  ghost function KernelStep(start: int, s: KernelState, c: KernelCall): KernelState {
    match c
    case Kmalloc(bytes, grants) =>
      var p := KmallocResult(s.blocks, start, bytes, grants);
      KernelState(KmallocBlocks(s.blocks, start, bytes), if p == 0 then s.live else s.live[p := bytes])
    case Kfree(address) =>
      if IsUsed(s.blocks, address - HEADER) then
        KernelState(Release(s.blocks, IndexOf(s.blocks, address - HEADER)), s.live - {address})
      else s
  }

  lemma KernelStepKeeps(start: int, s: KernelState, c: KernelCall)
    requires KernelInv(start, s) && KernelLegal(s, c)
    ensures KernelInv(start, KernelStep(start, s, c))
  {
    match c
    case Kmalloc(bytes, grants) => KmallocKeeps(start, s, bytes, grants);
    case Kfree(address) => KfreeKeeps(start, s, address);
  }

  lemma KfreeKeeps(start: int, s: KernelState, p: int)
    requires KernelInv(start, s) && p in s.live
    ensures KernelInv(start, KernelStep(start, s, Kfree(p)))
  {
    ReleaseLive(s.blocks, start, KHEAP_END, MIN_PAYLOAD, s.live, p);
    ReleaseShape(s.blocks, start, IndexOf(s.blocks, p - HEADER));
  }

  lemma KmallocKeeps(start: int, s: KernelState, bytes: Word, grants: int -> bool)
    requires KernelInv(start, s)
    ensures KernelInv(start, KernelStep(start, s, Kmalloc(bytes, grants)))
  {
    var i := FirstFit(s.blocks, KHEAP_END, Padded(bytes));
    if !Rejected(start, bytes) && i < |s.blocks| { KernelCarveKeeps(start, s, i, bytes); }
  }

  /** Carving block i keeps the invariant, whether the pointer is handed out or lost. */
  lemma KernelCarveKeeps(start: int, s: KernelState, i: nat, bytes: Word)
    requires KernelInv(start, s) && i < |s.blocks| && Fits(s.blocks, KHEAP_END, i, Padded(bytes))
    ensures var r := Carve(s.blocks, KHEAP_END, i, Padded(bytes));
            && KernelInv(start, KernelState(r, s.live))
            && KernelInv(start, KernelState(r, s.live[s.blocks[i].addr + HEADER := bytes]))
  {
    var n := Padded(bytes);
    CarveShape(s.blocks, start, i, n);
    CarveLive(s.blocks, start, KHEAP_END, MIN_PAYLOAD, i, n, s.live, bytes);
    CarveExtents(s.blocks, KHEAP_END, i, n);
    MoreRanges(s.blocks, KHEAP_END, Carve(s.blocks, KHEAP_END, i, n), KHEAP_END, s.live);
    SentinelApart(s.blocks, start, i);
  }

  /** A run is a list of calls, each legal in the state it is made in. */
  ghost predicate KernelRun(start: int, s: KernelState, calls: seq<KernelCall>, t: KernelState)
    decreases |calls|
  {
    if calls == [] then s == t
    else KernelLegal(s, calls[0]) && KernelRun(start, KernelStep(start, s, calls[0]), calls[1..], t)
  }

  function KernelStart(start: int): KernelState {
    KernelState([Block(start, false), Block(SENTINEL, true)], map[])
  }

  lemma KernelStartInv(start: int)
    requires 0 < start < KHEAP_END && start % PAGE_SIZE == 0
    ensures KernelInv(start, KernelStart(start))
  {
  }

  lemma {:induction false} KernelRunKeeps(start: int, s: KernelState, calls: seq<KernelCall>, t: KernelState)
    requires KernelInv(start, s) && KernelRun(start, s, calls, t)
    ensures KernelInv(start, t)
    decreases |calls|
  {
    if calls != [] {
      KernelStepKeeps(start, s, calls[0]);
      KernelRunKeeps(start, KernelStep(start, s, calls[0]), calls[1..], t);
    }
  }

  /** After any run from kmalloc_init the blocks tile the heap up to the sentinel, no two free blocks
      touch, and no live payload meets a header or another live payload. */
  lemma KernelRunSafe(start: int, calls: seq<KernelCall>, t: KernelState)
    requires 0 < start < KHEAP_END && start % PAGE_SIZE == 0
    requires KernelRun(start, KernelStart(start), calls, t)
    ensures KernelShape(t.blocks, start)
    ensures ClientsSafe(t.blocks, start, KHEAP_END, t.live)
  {
    KernelStartInv(start);
    KernelRunKeeps(start, KernelStart(start), calls, t);
    LiveIsSafe(t.blocks, start, KHEAP_END, MIN_PAYLOAD, t.live);
  }

  /** kmalloc never returns a pointer that is still live. */
  lemma KmallocFresh(start: int, s: KernelState, bytes: Word, grants: int -> bool)
    requires KernelInv(start, s)
    ensures KmallocResult(s.blocks, start, bytes, grants) !in s.live
  {
    var n, i := Padded(bytes), FirstFit(s.blocks, KHEAP_END, Padded(bytes));
    LiveIsSafe(s.blocks, start, KHEAP_END, MIN_PAYLOAD, s.live);
    if !Rejected(start, bytes) && i < |s.blocks| {
      CarveLive(s.blocks, start, KHEAP_END, MIN_PAYLOAD, i, n, s.live, 0);
    }
  }

  lemma KernelStepSpares(start: int, s: KernelState, c: KernelCall, p: int)
    requires KernelInv(start, s) && KernelLegal(s, c) && p in s.live && c != Kfree(p)
    ensures var t := KernelStep(start, s, c); p in t.live && t.live[p] == s.live[p]
  {
    if c.Kmalloc? { KmallocFresh(start, s, c.bytes, c.grants); }
  }

  /** Along a run, an allocation keeps its place and size until it is freed. */
  lemma {:induction false} KernelLiveUntilFreed(start: int, s: KernelState, calls: seq<KernelCall>, t: KernelState,
                                                p: int)
    requires KernelInv(start, s) && KernelRun(start, s, calls, t)
    requires p in s.live && Kfree(p) !in calls
    ensures p in t.live && t.live[p] == s.live[p]
    decreases |calls|
  {
    if calls != [] {
      var c := calls[0];
      assert c in calls;
      KernelStepKeeps(start, s, c);
      KernelStepSpares(start, s, c, p);
      KernelLiveUntilFreed(start, KernelStep(start, s, c), calls[1..], t, p);
    }
  }

  /** With every block but the sentinel free, the heap is a single block. */
  lemma KernelAllFree(bs: seq<Block>, start: int)
    requires KernelShape(bs, start) && forall i :: 0 <= i < |bs| - 1 ==> !bs[i].used
    ensures bs == KernelStart(start).blocks
  {
    assert 2 < |bs| ==> OneUsed(bs, 0);
  }

  /** kmalloc leaves the heap as it is only when no free block fits; its size limit turns away no
      request that would have fitted. */
  lemma KmallocGivesUp(bs: seq<Block>, start: int, bytes: Word)
    requires KernelShape(bs, start) && bytes != 0
    ensures KmallocBlocks(bs, start, bytes) == bs <==>
            forall i: nat :: i < |bs| ==> !Fits(bs, KHEAP_END, i, Padded(bytes))
    ensures var need := if bytes < 4 then 4 else bytes;
            KmallocBlocks(bs, start, bytes) == bs <==> forall i :: !Room(bs, KHEAP_END, i, need)
    ensures FirstFit(bs, KHEAP_END, Padded(bytes)) < |bs| ==> !Rejected(start, bytes)
  {
    var n, i := Padded(bytes), FirstFit(bs, KHEAP_END, Padded(bytes));
    KmallocServes(bs, start, bytes, _ => true);
    if i < |bs| {
      RoomBound(bs, start, i);
      CarvePayload(bs, KHEAP_END, i, n);
    }
  }

  /** The block a first fit takes is the lowest-addressed free block that fits. */
  lemma FirstFitLowest(bs: seq<Block>, start: int, end: int, gap: nat, bytes: int, j: nat)
    requires Tiled(bs, start, end, gap) && j < |bs| && Fits(bs, end, j, bytes)
    ensures var i := FirstFit(bs, end, bytes); i < |bs| && Fits(bs, end, i, bytes) && bs[i].addr <= bs[j].addr
  {
    var i := FirstFit(bs, end, bytes);
    assert i < j ==> Apart(bs, i, j, gap);
  }

  /** kmalloc's null is not always free of effect: it has marked a block used exactly when a block fits
      but one of its payload pages cannot be mapped. */
  lemma KmallocLeaks(bs: seq<Block>, start: int, bytes: Word, grants: int -> bool)
    requires KernelShape(bs, start)
    ensures KmallocResult(bs, start, bytes, grants) == 0 && KmallocBlocks(bs, start, bytes) != bs <==>
            var i := FirstFit(bs, KHEAP_END, Padded(bytes));
            bytes != 0 && i < |bs| && !AllGranted(grants, bs[i].addr + HEADER, Padded(bytes))
  {
    var i := FirstFit(bs, KHEAP_END, Padded(bytes));
    if bytes != 0 && i < |bs| { KmallocTakes(bs, start, bytes, grants); }
  }

  /** When a block fits, kmalloc takes it, and returns null exactly when a page cannot be mapped. */
  lemma KmallocTakes(bs: seq<Block>, start: int, bytes: Word, grants: int -> bool)
    requires KernelShape(bs, start) && bytes != 0 && FirstFit(bs, KHEAP_END, Padded(bytes)) < |bs|
    ensures KmallocBlocks(bs, start, bytes) != bs
    ensures var i := FirstFit(bs, KHEAP_END, Padded(bytes));
            KmallocResult(bs, start, bytes, grants) != 0 <==> AllGranted(grants, bs[i].addr + HEADER, Padded(bytes))
  {
    SentinelApart(bs, start, FirstFit(bs, KHEAP_END, Padded(bytes)));
    KmallocGivesUp(bs, start, bytes);
    NullUngranted(bs, start, bytes, grants);
  }

  lemma NullUngranted(bs: seq<Block>, start: int, bytes: Word, grants: int -> bool)
    requires !Rejected(start, bytes)
    requires var i := FirstFit(bs, KHEAP_END, Padded(bytes)); i < |bs| && 0 <= bs[i].addr
    ensures var i := FirstFit(bs, KHEAP_END, Padded(bytes));
            KmallocResult(bs, start, bytes, grants) != 0 <==> AllGranted(grants, bs[i].addr + HEADER, Padded(bytes))
  {
  }

  /** Freeing the pointer kmalloc has just returned restores the whole state. */
  lemma KmallocKfree(start: int, s: KernelState, bytes: Word, grants: int -> bool)
    requires KernelInv(start, s) && KmallocResult(s.blocks, start, bytes, grants) != 0
    ensures
      var p, t := KmallocResult(s.blocks, start, bytes, grants), KernelStep(start, s, Kmalloc(bytes, grants));
      KernelInv(start, t) && p in t.live && KernelStep(start, t, Kfree(p)) == s
  {
    var n, i := Padded(bytes), FirstFit(s.blocks, KHEAP_END, Padded(bytes));
    var p, t := s.blocks[i].addr + HEADER, KernelStep(start, s, Kmalloc(bytes, grants));
    KmallocKeeps(start, s, bytes, grants);
    KmallocFresh(start, s, bytes, grants);
    CarvedIndex(s.blocks, start, KHEAP_END, MIN_PAYLOAD, i, n);
    assert s.live[p := bytes] - {p} == s.live;
  }

  // ----- the user heap -----

  datatype UserState = UserState(heap: Heap, live: map<int, int>)

  datatype UserCall =
    | Malloc(bytes: Word, vm: (int, int) -> bool)
    | Free(address: int)

  ghost predicate UserInv(start: int, s: UserState) {
    UserShape(s.heap.blocks, start, s.heap.end) && LiveIn(s.heap.blocks, s.heap.end, s.live)
  }

  /** Only live pointers may be freed, and the size of a growth must not wrap. */
  ghost predicate UserLegal(s: UserState, c: UserCall)
    requires 0 < |s.heap.blocks|
  {
    match c
    case Malloc(bytes, vm) => Bounded(vm) && !GrowthWraps(s.heap, bytes, vm)
    case Free(address) => address in s.live
  }

  /** Bytes a request is good for: all of them, unless rounding to 4 wraps it to zero. */
  function Owed(bytes: Word): int {
    if bytes <= 0xFFFF_FFFC then bytes else 0
  }

  ghost function UserStep(s: UserState, c: UserCall): UserState
    requires 0 < |s.heap.blocks|
  {
    match c
    case Malloc(bytes, vm) =>
      var p := MallocResult(s.heap, bytes, vm);
      UserState(Heap(MallocBlocks(s.heap, bytes, vm), MallocEnd(s.heap, bytes, vm)),
                if p == 0 then s.live else s.live[p := Owed(bytes)])
    case Free(address) =>
      if IsUsed(s.heap.blocks, address - HEADER) then
        UserState(Heap(Release(s.heap.blocks, IndexOf(s.heap.blocks, address - HEADER)), s.heap.end),
                  s.live - {address})
      else s
  }

  /** Growing changes no used range. */
  lemma GrownExtents(bs: seq<Block>, end: int, e: int)
    requires 0 < |bs|
    ensures Extents(Grown(bs, end), e) == Extents(bs, end)
  {
    var r := Grown(bs, end);
    forall k | 0 <= k < |bs| && bs[k].used ensures r[k] == bs[k] && EndOf(r, e, k) == EndOf(bs, end, k) {}
  }

  lemma FreeKeeps(start: int, s: UserState, p: int)
    requires UserInv(start, s) && p in s.live
    ensures UserInv(start, UserStep(s, Free(p)))
  {
    ReleaseLive(s.heap.blocks, start, s.heap.end, 0, s.live, p);
    UserRelease(s.heap.blocks, start, s.heap.end, IndexOf(s.heap.blocks, p - HEADER));
  }

  /** Carving block i for a request keeps the invariant and hands out a fresh, non-null pointer. */
  lemma UserCarveKeeps(start: int, h: Heap, live: map<int, int>, i: nat, bytes: Word)
    requires UserInv(start, UserState(h, live)) && i < |h.blocks| && Fits(h.blocks, h.end, i, Rounded(bytes))
    ensures var p := h.blocks[i].addr + HEADER;
            && p != 0 && p !in live
            && UserInv(start, UserState(Heap(Carve(h.blocks, h.end, i, Rounded(bytes)), h.end), live[p := Owed(bytes)]))
  {
    UserCarve(h.blocks, start, h.end, i, Rounded(bytes));
    CarveLive(h.blocks, start, h.end, 0, i, Rounded(bytes), live, Owed(bytes));
    InHeap(h.blocks, start, h.end, 0, i);
  }

  lemma GrownInv(start: int, h: Heap, live: map<int, int>, size: Word)
    requires UserInv(start, UserState(h, live)) && size + HEADER <= 0xFFFF_F000 && h.end + Expansion(size) <= TOP
    ensures var g := Heap(Grown(h.blocks, h.end), h.end + Expansion(size));
            UserInv(start, UserState(g, live)) && Fits(g.blocks, g.end, |g.blocks| - 1, size)
  {
    var r, e := Grown(h.blocks, h.end), h.end + Expansion(size);
    UserGrow(h.blocks, start, h.end, size);
    GrownExtents(h.blocks, h.end, e);
    MoreRanges(h.blocks, h.end, r, e, live);
  }

  /** A successful malloc carves one free block, of the heap as it was or as it is after growing. */
  lemma MallocCarves(start: int, s: UserState, bytes: Word, vm: (int, int) -> bool) returns (g: Heap, i: nat)
    requires UserInv(start, s) && UserLegal(s, Malloc(bytes, vm)) && MallocResult(s.heap, bytes, vm) != 0
    ensures UserInv(start, UserState(g, s.live))
    ensures i < |g.blocks| && Fits(g.blocks, g.end, i, Rounded(bytes))
    ensures MallocBlocks(s.heap, bytes, vm) == Carve(g.blocks, g.end, i, Rounded(bytes))
    ensures MallocEnd(s.heap, bytes, vm) == g.end
    ensures MallocResult(s.heap, bytes, vm) == g.blocks[i].addr + HEADER
    ensures g == if g.end == s.heap.end then s.heap else Heap(Grown(s.heap.blocks, s.heap.end), g.end)
  {
    var h := s.heap;
    i := FirstFit(h.blocks, h.end, Rounded(bytes));
    if i < |h.blocks| {
      g := h;
    } else {
      g := Heap(Grown(h.blocks, h.end), h.end + Expansion(Rounded(bytes)));
      GrownInv(start, h, s.live, Rounded(bytes));
      i := |g.blocks| - 1;
    }
  }

  lemma MallocKeeps(start: int, s: UserState, bytes: Word, vm: (int, int) -> bool)
    requires UserInv(start, s) && UserLegal(s, Malloc(bytes, vm))
    ensures UserInv(start, UserStep(s, Malloc(bytes, vm))) && MallocResult(s.heap, bytes, vm) !in s.live
  {
    if MallocResult(s.heap, bytes, vm) == 0 {
      MallocNull(start, s.heap, bytes, vm);
      LiveIsSafe(s.heap.blocks, start, s.heap.end, 0, s.live);
    } else {
      var g, i := MallocCarves(start, s, bytes, vm);
      UserCarveKeeps(start, g, s.live, i, bytes);
    }
  }

  lemma UserStepKeeps(start: int, s: UserState, c: UserCall)
    requires UserInv(start, s) && UserLegal(s, c)
    ensures UserInv(start, UserStep(s, c))
  {
    match c
    case Malloc(bytes, vm) => MallocKeeps(start, s, bytes, vm);
    case Free(address) => FreeKeeps(start, s, address);
  }

  ghost predicate UserRun(s: UserState, calls: seq<UserCall>, t: UserState)
    decreases |calls|
  {
    if calls == [] then s == t
    else 0 < |s.heap.blocks| && UserLegal(s, calls[0]) && UserRun(UserStep(s, calls[0]), calls[1..], t)
  }

  function UserStart(start: int): UserState {
    UserState(Heap([Block(start, false)], start + PAGE_SIZE), map[])
  }

  lemma UserStartInv(start: int)
    requires 0 < start && start + PAGE_SIZE <= TOP
    ensures UserInv(start, UserStart(start))
  {
  }

  lemma {:induction false} UserRunKeeps(start: int, s: UserState, calls: seq<UserCall>, t: UserState)
    requires UserInv(start, s) && UserRun(s, calls, t)
    ensures UserInv(start, t)
    decreases |calls|
  {
    if calls != [] {
      UserStepKeeps(start, s, calls[0]);
      UserRunKeeps(start, UserStep(s, calls[0]), calls[1..], t);
    }
  }

  /** After any run from malloc_init the blocks tile whole pages, no two free blocks touch, every header
      and live pointer is 4-aligned when the heap start is, and live payloads meet nothing else. */
  lemma UserRunSafe(start: int, calls: seq<UserCall>, t: UserState)
    requires 0 < start && start + PAGE_SIZE <= TOP
    requires UserRun(UserStart(start), calls, t)
    ensures UserShape(t.heap.blocks, start, t.heap.end)
    ensures ClientsSafe(t.heap.blocks, start, t.heap.end, t.live)
    ensures start % 4 == 0 ==> forall p :: p in t.live ==> p % 4 == 0
  {
    UserStartInv(start);
    UserRunKeeps(start, UserStart(start), calls, t);
    LiveIsSafe(t.heap.blocks, start, t.heap.end, 0, t.live);
    if start % 4 == 0 { LiveAligned(start, t); }
  }

  lemma LiveAligned(start: int, s: UserState)
    requires UserInv(start, s) && start % 4 == 0
    ensures forall p :: p in s.live ==> p % 4 == 0
  {
    forall p | p in s.live ensures p % 4 == 0 {
      var i := Owner(s.heap.blocks, s.heap.end, s.live, p);
      assert AlignedTo(s.heap.blocks, start, i);
      SumAligned(start, s.heap.blocks[i].addr - start);
    }
  }

  lemma SumAligned(a: int, b: int)
    requires a % 4 == 0 && b % 4 == 0
    ensures (a + b + HEADER) % 4 == 0
  {
  }

  lemma UserStepSpares(start: int, s: UserState, c: UserCall, p: int)
    requires UserInv(start, s) && UserLegal(s, c) && p in s.live && c != Free(p)
    ensures var t := UserStep(s, c); p in t.live && t.live[p] == s.live[p]
  {
    if c.Malloc? { MallocKeeps(start, s, c.bytes, c.vm); }
  }

  /** Along a run, an allocation keeps its place and size until it is freed, through every growth. */
  lemma {:induction false} UserLiveUntilFreed(start: int, s: UserState, calls: seq<UserCall>, t: UserState, p: int)
    requires UserInv(start, s) && UserRun(s, calls, t)
    requires p in s.live && Free(p) !in calls
    ensures p in t.live && t.live[p] == s.live[p]
    decreases |calls|
  {
    if calls != [] {
      var c := calls[0];
      assert c in calls;
      UserStepKeeps(start, s, c);
      UserStepSpares(start, s, c, p);
      UserLiveUntilFreed(start, UserStep(s, c), calls[1..], t, p);
    }
  }

  lemma UserAllFree(bs: seq<Block>, start: int, end: int)
    requires UserShape(bs, start, end) && forall i :: 0 <= i < |bs| ==> !bs[i].used
    ensures bs == [Block(start, false)]
  {
    assert |bs| == 1 || OneUsed(bs, 0);
  }

  /** malloc returns null exactly for an empty request or when nothing fits and the heap may not or
      cannot grow, and then it has changed nothing. */
  lemma MallocNull(start: int, h: Heap, bytes: Word, vm: (int, int) -> bool)
    requires UserShape(h.blocks, start, h.end)
    ensures MallocResult(h, bytes, vm) == 0 <==>
            bytes == 0
            || ((forall i: nat :: i < |h.blocks| ==> !Fits(h.blocks, h.end, i, Rounded(bytes)))
                && !(MayGrow(h.end, FreeTail(h.blocks, h.end), Rounded(bytes))
                     && vm(h.end, Expansion(Rounded(bytes)) / PAGE_SIZE)))
    ensures MallocResult(h, bytes, vm) == 0 ==>
              MallocBlocks(h, bytes, vm) == h.blocks && MallocEnd(h, bytes, vm) == h.end
  {
    var i := FirstFit(h.blocks, h.end, Rounded(bytes));
    InHeap(h.blocks, start, h.end, 0, if i < |h.blocks| then i else |h.blocks| - 1);
  }

  /** The heap grows only when no free block fits, and the grown final block then fits the request
      exactly when the size of the growth did not wrap. */
  lemma GrownFits(start: int, h: Heap, bytes: Word, vm: (int, int) -> bool)
    requires UserShape(h.blocks, start, h.end) && Bounded(vm) && bytes != 0
    requires Grows(h.blocks, h.end, Rounded(bytes), vm)
    ensures forall i: nat :: i < |h.blocks| ==> !Fits(h.blocks, h.end, i, Rounded(bytes))
    ensures var r := Grown(h.blocks, h.end);
            Fits(r, MallocEnd(h, bytes, vm), |r| - 1, Rounded(bytes)) <==> !GrowthWraps(h, bytes, vm)
  {
    if GrowthWraps(h, bytes, vm) { WrappedGrowthTooSmall(h.blocks, start, h.end, bytes, vm); }
    else { UserGrow(h.blocks, start, h.end, Rounded(bytes)); }
  }

  /** Whenever malloc succeeds, the block it hands out has room for the request exactly when the request
      is at most 0xFFFFFFFC bytes; larger ones are rounded to zero. */
  lemma RequestHonoured(start: int, s: UserState, bytes: Word, vm: (int, int) -> bool)
    requires UserInv(start, s) && UserLegal(s, Malloc(bytes, vm)) && MallocResult(s.heap, bytes, vm) != 0
    ensures var t, p := UserStep(s, Malloc(bytes, vm)).heap, MallocResult(s.heap, bytes, vm);
            && IsUsed(t.blocks, p - HEADER)
            && (bytes <= Payload(t.blocks, t.end, IndexOf(t.blocks, p - HEADER)) <==> bytes <= 0xFFFF_FFFC)
  {
    var g, i := MallocCarves(start, s, bytes, vm);
    CarvedPayload(g.blocks, start, g.end, i, Rounded(bytes));
  }

  lemma CarvedPayload(bs: seq<Block>, start: int, end: int, i: nat, n: int)
    requires Tiled(bs, start, end, 0) && i < |bs| && 0 <= n && Fits(bs, end, i, n)
    ensures var r := Carve(bs, end, i, n);
            IsUsed(r, bs[i].addr) && n <= Payload(r, end, IndexOf(r, bs[i].addr)) < n + HEADER + MIN_PAYLOAD
  {
    var r := Carve(bs, end, i, n);
    CarvePayload(bs, end, i, n);
    CarveTiled(bs, start, end, 0, i, n);
    UsedBlock(r, i);
    SameIndex(r, start, end, 0, i, IndexOf(r, bs[i].addr));
  }

  /** Freeing the pointer malloc has just returned restores the whole state, or, when the heap grew, the
      old list with its free tail extended or one free block appended. */
  lemma MallocFree(start: int, s: UserState, bytes: Word, vm: (int, int) -> bool)
    requires UserInv(start, s) && UserLegal(s, Malloc(bytes, vm)) && MallocResult(s.heap, bytes, vm) != 0
    ensures
      var p, t := MallocResult(s.heap, bytes, vm), UserStep(s, Malloc(bytes, vm));
      && UserInv(start, t) && p in t.live
      && UserStep(t, Free(p)) ==
         if MallocEnd(s.heap, bytes, vm) == s.heap.end then s
         else UserState(Heap(Grown(s.heap.blocks, s.heap.end), MallocEnd(s.heap, bytes, vm)), s.live)
  {
    var g, i := MallocCarves(start, s, bytes, vm);
    MallocKeeps(start, s, bytes, vm);
    CarvedIndex(g.blocks, start, g.end, 0, i, Rounded(bytes));
    var p := MallocResult(s.heap, bytes, vm);
    assert s.live[p := Owed(bytes)] - {p} == s.live;
  }

  // ----- inputs at which the departures show -----

  /** A virtual-allocation call that grants whatever ends below the ceiling. */
  function Granting(a: int, n: int): bool {
    a + n * PAGE_SIZE <= TOP
  }

  /** A request that fills `pages` whole pages together with its header. */
  function Filling(pages: nat): Word
    requires 1 < pages <= 0xA_0000
  {
    pages * PAGE_SIZE - HEADER
  }

  /** The heap malloc_init makes on 0x1000, with that many free pages more. */
  function LargeHeap(pages: nat): Heap {
    Heap([Block(0x1000, false)], 0x2000 + pages * PAGE_SIZE)
  }

  /** A legal run leads there. */
  lemma LargeThenFree(pages: nat)
    requires 1 < pages <= 0xA_0000
    ensures UserRun(UserStart(0x1000), [Malloc(Filling(pages), Granting), Free(0x100C)],
                    UserState(LargeHeap(pages), map[]))
  {
    var s, h, n := UserStart(0x1000), LargeHeap(pages), Filling(pages);
    UserStartInv(0x1000);
    LargeRequest(pages);
    MallocFree(0x1000, s, n, Granting);
    var m, f := Malloc(n, Granting), Free(0x100C);
    var t := UserStep(s, m);
    assert UserStep(t, f) == UserState(h, map[]);
    assert UserRun(UserStep(t, f), [], UserState(h, map[]));
    assert [m, f][1..] == [f] && [f][1..] == [];
    assert UserRun(t, [f], UserState(h, map[]));
  }

  lemma WholePages(pages: nat)
    ensures pages * PAGE_SIZE % PAGE_SIZE == 0 && pages * PAGE_SIZE / PAGE_SIZE == pages
    ensures (pages * PAGE_SIZE - HEADER) % 4 == 0
  {
  }

  lemma FillsPages(pages: nat)
    requires 1 < pages <= 0xA_0000
    ensures var n := Filling(pages);
            Rounded(n) == n && Expansion(n) == pages * PAGE_SIZE && Expansion(n) / PAGE_SIZE == pages
  {
    WholePages(pages);
  }

  lemma LargeRequest(pages: nat)
    requires 1 < pages <= 0xA_0000
    ensures var h, n := UserStart(0x1000).heap, Filling(pages);
            && UserLegal(UserStart(0x1000), Malloc(n, Granting))
            && MallocResult(h, n, Granting) == 0x100C && MallocEnd(h, n, Granting) == LargeHeap(pages).end
            && Grown(h.blocks, h.end) == [Block(0x1000, false)]
  {
    var h, n := UserStart(0x1000).heap, Filling(pages);
    FillsPages(pages);
    assert FirstFit(h.blocks, h.end, n) == 1;
  }

  /** One large request and its free leave a heap on which the request 0xFFFFFFE8 makes the growth wrap. */
  lemma GrowthWrapsExample()
    ensures var h := LargeHeap(0x5_FFFF);
            && UserRun(UserStart(0x1000), [Malloc(0x5FFF_EFF4, Granting), Free(0x100C)], UserState(h, map[]))
            && GrowthWraps(h, 0xFFFF_FFE8, Granting)
            && MallocResult(h, 0xFFFF_FFE8, Granting) == 0x100C && MallocEnd(h, 0xFFFF_FFE8, Granting) == h.end
  {
    LargeThenFree(0x5_FFFF);
    WrappingRequest();
  }

  lemma WrappingRequest()
    ensures var h := LargeHeap(0x5_FFFF);
            && GrowthWraps(h, 0xFFFF_FFE8, Granting)
            && MallocResult(h, 0xFFFF_FFE8, Granting) == 0x100C && MallocEnd(h, 0xFFFF_FFE8, Granting) == h.end
  {
    var h := LargeHeap(0x5_FFFF);
    assert Rounded(0xFFFF_FFE8) == 0xFFFF_FFE8 && Expansion(0xFFFF_FFE8) == 0;
    assert FirstFit(h.blocks, h.end, 0xFFFF_FFE8) == 1;
  }

  /** From malloc_init, one request within the bound of the test leaves a heap that ends past its ceiling. */
  lemma CeilingExample()
    ensures var s := UserStart(0x1000);
            && !UnderCeiling(s.heap.end, FreeTail(s.heap.blocks, s.heap.end), 0x9FFF_FFF4)
            && UserLegal(s, Malloc(0x9FFF_FFF4, Granting)) && MallocResult(s.heap, 0x9FFF_FFF4, Granting) == 0x100C
            && UserStep(s, Malloc(0x9FFF_FFF4, Granting)).heap.end == 0xA000_2000 > HEAP_END
  {
    LargeRequest(0xA_0000);
  }

  /** On a heap with a larger free tail, also reached by one request and its free, the request 0x60002000 is
      refused, though it ends below the ceiling. */
  lemma CeilingRefusesExample()
    ensures var h := LargeHeap(0x6_0000);
            && UserRun(UserStart(0x1000), [Malloc(0x5FFF_FFF4, Granting), Free(0x100C)], UserState(h, map[]))
            && UnderCeiling(h.end, FreeTail(h.blocks, h.end), 0x6000_2000)
            && MallocResult(h, 0x6000_2000, Granting) == 0
  {
    LargeThenFree(0x6_0000);
    var h := LargeHeap(0x6_0000);
    assert Rounded(0x6000_2000) == 0x6000_2000;
    assert FirstFit(h.blocks, h.end, 0x6000_2000) == 1;
    CeilingExactly(h.end, FreeTail(h.blocks, h.end), 0x6000_2000);
  }

  /** On the heap malloc_init makes, a request for 0xFFFFFFFD bytes succeeds with a block that holds none of
      them. */
  lemma RequestExample()
    ensures var s := UserStart(0x1000);
            var t, p := UserStep(s, Malloc(0xFFFF_FFFD, Granting)).heap, MallocResult(s.heap, 0xFFFF_FFFD, Granting);
            p == 0x100C && IsUsed(t.blocks, 0x1000) && Payload(t.blocks, t.end, IndexOf(t.blocks, 0x1000)) == 0
  {
    var s := UserStart(0x1000);
    var h := s.heap;
    UserStartInv(0x1000);
    assert Rounded(0xFFFF_FFFD) == 0 && Fits(h.blocks, h.end, 0, 0);
    assert FirstFit(h.blocks, h.end, 0) == 0;
    assert Carve(h.blocks, h.end, 0, 0) == [Block(0x1000, true), Block(0x100C, false)];
  }

  /** On the heap kmalloc_init makes, a request for 16 bytes whose page cannot be mapped returns null and keeps
      the block. */
  lemma KmallocLeakExample()
    ensures var bs, grants := KernelStart(0xC010_0000).blocks, (page: int) => page != 0xC_0100;
            && KernelShape(bs, 0xC010_0000) && KmallocResult(bs, 0xC010_0000, 16, grants) == 0
            && KmallocBlocks(bs, 0xC010_0000, 16) ==
               [Block(0xC010_0000, true), Block(0xC010_001C, false), Block(SENTINEL, true)]
  {
    var bs := KernelStart(0xC010_0000).blocks;
    KernelStartInv(0xC010_0000);
    assert FirstFit(bs, KHEAP_END, 16) == 0;
    assert OnPage(0xC010_000C, 16, 0xC_0100);
  }
}
