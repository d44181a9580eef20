/** malloc and free: a first-fit heap that grows by whole pages and ends in a null link. */
module UserMalloc {
  import opened Blocks
  import opened HeaderMemory
  import opened Requests

  const HEAP_END: Word := 0xA000_0000
  const TOP: Word := 0xFFFF_F000 // where the page directory shows

  /** The request after the minimum size and the rounding to 4 bytes, in 32-bit arithmetic. */
  function Rounded(bytes: Word): (r: Word)
    ensures r % 4 == 0
    ensures bytes <= 0xFFFF_FFFC ==> bytes <= r && MIN_PAYLOAD <= r
    ensures if bytes < 4 then r == 4 else r < bytes + 4
    ensures bytes > 0xFFFF_FFFC ==> r == 0
  {
    if bytes < MIN_PAYLOAD then MIN_PAYLOAD
    else if bytes % 4 == 0 then bytes
    else var x := (bytes + 4) % ADDRESS_SPACE; x - x % 4
  }

  /** Bytes by which malloc grows the heap for a request of `size`, in 32-bit arithmetic. */
  function Expansion(size: Word): (r: Word)
    ensures r % PAGE_SIZE == 0
    ensures size + HEADER <= 0xFFFF_F000 ==> size + HEADER <= r < size + HEADER + PAGE_SIZE
    ensures size + HEADER > 0xFFFF_F000 ==> r <= PAGE_SIZE
  {
    var x := (size + HEADER) % ADDRESS_SPACE;
    if x % PAGE_SIZE == 0 then x
    else var y := (x + PAGE_SIZE) % ADDRESS_SPACE; y - y % PAGE_SIZE
  }

  /** Payload bytes of the final block when it is free, else 0. */
  function FreeTail(bs: seq<Block>, end: int): int
    requires 0 < |bs|
  {
    if bs[|bs| - 1].used then 0 else Payload(bs, end, |bs| - 1)
  }

  /** malloc's test that the heap may still grow, with its narrowing cast of the heap end. */
  predicate MayGrow(end: int, tail: int, size: int) {
    size <= (HEAP_END - (end % 256 - tail) - HEADER) % ADDRESS_SPACE
  }

  /** The test MayGrow stands for: the free tail, a header and the request end at the ceiling or below. */
  predicate UnderCeiling(end: int, tail: int, size: int) {
    end - tail + HEADER + size <= HEAP_END
  }

  /** The bound of MayGrow before it is cut to 32 bits. */
  function Bound(end: int, tail: int): int {
    HEAP_END - end % 256 + tail - HEADER
  }

  /** For a request that no block fits, and so not the free tail: the test lets it past the ceiling exactly
      when it is above the real bound and at most `Bound`, and turns it away below the ceiling exactly when
      `Bound` has wrapped. */
  lemma CeilingExactly(end: int, tail: int, size: Word)
    requires 0 <= tail < end <= TOP && tail < size
    ensures MayGrow(end, tail, size) && !UnderCeiling(end, tail, size) <==>
            HEAP_END - end + tail - HEADER < size <= Bound(end, tail) < ADDRESS_SPACE
    ensures !MayGrow(end, tail, size) && UnderCeiling(end, tail, size) <==>
            size <= HEAP_END - end + tail - HEADER && ADDRESS_SPACE <= Bound(end, tail)
  {
    if Bound(end, tail) < ADDRESS_SPACE {
      assert Bound(end, tail) % ADDRESS_SPACE == Bound(end, tail);
    } else {
      assert Bound(end, tail) % ADDRESS_SPACE == Bound(end, tail) - ADDRESS_SPACE;
    }
  }

  /** The heap grows for this request, which happens only when no free block fits. */
  predicate Grows(bs: seq<Block>, end: int, size: Word, vm: (int, int) -> bool)
    requires 0 < |bs|
  {
    && FirstFit(bs, end, size) == |bs|
    && MayGrow(end, FreeTail(bs, end), size)
    && vm(end, Expansion(size) / PAGE_SIZE)
  }

  /** The list after growth, before the new request is carved out of its final block. */
  function Grown(bs: seq<Block>, end: int): seq<Block>
    requires 0 < |bs|
  {
    if bs[|bs| - 1].used then InsertAt(bs, |bs|, Block(end, false)) else bs
  }

  ghost predicate AlignedTo(bs: seq<Block>, start: int, i: nat)
    requires i < |bs|
  {
    (bs[i].addr - start) % 4 == 0
  }

  ghost predicate Aligned(bs: seq<Block>, start: int) {
    forall i: nat :: i < |bs| ==> AlignedTo(bs, start, i)
  }

  /** The user heap's shape: a coalesced tiling of whole pages with 4-aligned blocks. */
  ghost predicate UserShape(bs: seq<Block>, start: int, end: int) {
    && 0 < start < end <= TOP
    && (end - start) % PAGE_SIZE == 0
    && Tiled(bs, start, end, 0)
    && Coalesced(bs)
    && Aligned(bs, start)
  }

  /** On every heap some request gets past the ceiling, unless the free tail is so large that the bound wraps. */
  lemma CeilingOpen(bs: seq<Block>, start: int, end: int)
    requires UserShape(bs, start, end)
    ensures var tail := FreeTail(bs, end);
            (exists size: Word :: tail < size && MayGrow(end, tail, size) && !UnderCeiling(end, tail, size)) <==>
            Bound(end, tail) < ADDRESS_SPACE
  {
    var tail := FreeTail(bs, end);
    InHeap(bs, start, end, 0, |bs| - 1);
    if Bound(end, tail) < ADDRESS_SPACE {
      var size: Word := Bound(end, tail);
      CeilingExactly(end, tail, size);
      assert tail < size && MayGrow(end, tail, size) && !UnderCeiling(end, tail, size);
    }
    forall size: Word | tail < size && MayGrow(end, tail, size) && !UnderCeiling(end, tail, size)
      ensures Bound(end, tail) < ADDRESS_SPACE
    {
      CeilingExactly(end, tail, size);
    }
  }

  datatype Heap = Heap(blocks: seq<Block>, end: int)

  /** The virtual-allocation system call never grants pages past TOP; it may grant pages past HEAP_END. */
  ghost predicate Bounded(vm: (int, int) -> bool) {
    forall a, n :: vm(a, n) ==> a + n * PAGE_SIZE <= TOP
  }

  /** The heap end malloc leaves behind. */
  function MallocEnd(h: Heap, bytes: Word, vm: (int, int) -> bool): int
    requires 0 < |h.blocks|
  {
    if bytes != 0 && Grows(h.blocks, h.end, Rounded(bytes), vm) then h.end + Expansion(Rounded(bytes)) else h.end
  }

  /** The block list malloc leaves behind. */
  function MallocBlocks(h: Heap, bytes: Word, vm: (int, int) -> bool): seq<Block>
    requires 0 < |h.blocks|
  {
    var size, i := Rounded(bytes), FirstFit(h.blocks, h.end, Rounded(bytes));
    if bytes == 0 then h.blocks
    else if i < |h.blocks| then Carve(h.blocks, h.end, i, size)
    else if Grows(h.blocks, h.end, size, vm) then
      var r := Grown(h.blocks, h.end);
      Carve(r, h.end + Expansion(size), |r| - 1, size)
    else h.blocks
  }

  /** The pointer malloc returns. */
  function MallocResult(h: Heap, bytes: Word, vm: (int, int) -> bool): int
    requires 0 < |h.blocks|
  {
    var size, i := Rounded(bytes), FirstFit(h.blocks, h.end, Rounded(bytes));
    if bytes == 0 then 0
    else if i < |h.blocks| then h.blocks[i].addr + HEADER
    else if Grows(h.blocks, h.end, size, vm) then
      var bs := Grown(h.blocks, h.end);
      bs[|bs| - 1].addr + HEADER
    else 0
  }

  /** The request makes the size of the growth wrap around 2^32. */
  predicate GrowthWraps(h: Heap, bytes: Word, vm: (int, int) -> bool)
    requires 0 < |h.blocks|
  {
    bytes != 0 && Grows(h.blocks, h.end, Rounded(bytes), vm) && Rounded(bytes) + HEADER > 0xFFFF_F000
  }

  lemma UserCarve(bs: seq<Block>, start: int, end: int, i: nat, size: int)
    requires UserShape(bs, start, end) && i < |bs| && 0 <= size && size % 4 == 0 && Fits(bs, end, i, size)
    ensures UserShape(Carve(bs, end, i, size), start, end)
  {
    CarveTiled(bs, start, end, 0, i, size);
    CarveCoalesced(bs, end, i, size);
    CarveAligned(bs, start, end, i, size);
  }

  lemma CarveAligned(bs: seq<Block>, start: int, end: int, i: nat, size: int)
    requires Aligned(bs, start) && i < |bs| && size % 4 == 0
    ensures Aligned(Carve(bs, end, i, size), start)
  {
    var r := Carve(bs, end, i, size);
    assert AlignedTo(bs, start, i);
    forall k: nat | k < |r| ensures AlignedTo(r, start, k) {
      assert AlignedTo(bs, start, if k <= i then k else k + |bs| - |r|);
    }
  }

  lemma UserRelease(bs: seq<Block>, start: int, end: int, i: nat)
    requires UserShape(bs, start, end) && i < |bs| && bs[i].used
    ensures UserShape(Release(bs, i), start, end)
  {
    ReleaseTiled(bs, start, end, 0, i);
    ReleaseCoalesced(bs, i);
    ReleaseAligned(bs, start, i);
  }

  lemma ReleaseAligned(bs: seq<Block>, start: int, i: nat)
    requires Aligned(bs, start) && i < |bs|
    ensures Aligned(Release(bs, i), start)
  {
    var r := Release(bs, i);
    forall k: nat | k < |r| ensures AlignedTo(r, start, k) {
      ReleaseAt(bs, i, k);
      assert AlignedTo(bs, start, k) && AlignedTo(bs, start, k + |bs| - |r|);
    }
  }

  /** Growing by enough pages for header and request gives a well-shaped heap whose final block is free
      and fits the request. */
  lemma UserGrow(bs: seq<Block>, start: int, end: int, size: Word)
    requires UserShape(bs, start, end) && size + HEADER <= 0xFFFF_F000 && end + Expansion(size) <= TOP
    ensures var r, e := Grown(bs, end), end + Expansion(size);
            UserShape(r, start, e) && Fits(r, e, |r| - 1, size)
  {
    var r, n := Grown(bs, end), |bs| - 1;
    MorePages(start, end, Expansion(size));
    if bs[n].used { InsertTiled(bs, start, end + Expansion(size), 0, n, Block(end, false)); }
    forall k | 0 <= k < |r| - 1 ensures OneUsed(r, k) { if k < n { assert OneUsed(bs, k); } }
    forall k: nat | k < |r| ensures AlignedTo(r, start, k) { assert k <= n ==> AlignedTo(bs, start, k); }
  }

  lemma MorePages(start: int, end: int, more: int)
    requires (end - start) % PAGE_SIZE == 0 && more % PAGE_SIZE == 0
    ensures (end + more - start) % PAGE_SIZE == 0 && (end - start) % 4 == 0
  {
  }

  /** A growth whose size wraps adds at most one page, so the block malloc hands out is too small. */
  lemma WrappedGrowthTooSmall(bs: seq<Block>, start: int, end: int, bytes: Word, vm: (int, int) -> bool)
    requires UserShape(bs, start, end) && GrowthWraps(Heap(bs, end), bytes, vm)
    ensures !bs[|bs| - 1].used && Payload(bs, end, |bs| - 1) > 0x5FFF_EF00
    ensures MallocEnd(Heap(bs, end), bytes, vm) < MallocResult(Heap(bs, end), bytes, vm) + bytes
  {
    var n := |bs| - 1;
    InHeap(bs, start, end, 0, n);
    assert !Fits(bs, end, n, Rounded(bytes));
  }

  /** What a call of malloc for 1 up to 0xFFFFFFFC bytes comes to: with room for the bytes, and for 4 at least, the
      lowest block that has it is handed out; without, the final block, if free, or a new one at the old end, or
      null. */
  ghost predicate Honours(h: Heap, bytes: int, h': Heap, ret: int) {
    var bs, need := h.blocks, if bytes < 4 then 4 else bytes;
    && (forall i :: LowestRoom(bs, h.end, i, need) ==>
                      HandedOut(bs, h'.blocks, h.end, i, need) && h'.end == h.end && ret == bs[i].addr + HEADER)
    && ((forall i :: !Room(bs, h.end, i, need)) && ret != 0 && bs != [] ==>
          var n := |bs| - 1;
          && ret == HEADER + (if bs[n].used then h.end else bs[n].addr)
          && Holding(h'.blocks, h'.end, if bs[n].used then n + 1 else n, ret - HEADER, need))
  }

  lemma PayloadAligned(bs: seq<Block>, start: int, end: int, i: nat)
    requires UserShape(bs, start, end) && i < |bs|
    ensures Payload(bs, end, i) % 4 == 0
  {
    assert AlignedTo(bs, start, i) && (i + 1 < |bs| ==> AlignedTo(bs, start, i + 1));
    Spacing(bs[i].addr - start, EndOf(bs, end, i) - start) by { MorePages(start, end, 0); }
  }

  lemma Spacing(a: int, b: int)
    requires a % 4 == 0 && b % 4 == 0
    ensures (b - a - HEADER) % 4 == 0
  {
  }

  /** Multiples of 4 have room for the request exactly when they have room for it rounded up. */
  lemma RoundedNeed(bytes: Word, n: int)
    requires 0 < bytes <= 0xFFFF_FFFC && n % 4 == 0
    ensures var need := if bytes < 4 then 4 else bytes;
            && (Rounded(bytes) <= n <==> need <= n)
            && (n < Rounded(bytes) + 16 ==> n < need + 16)
  {
  }

  lemma RoomRounded(bs: seq<Block>, start: int, end: int, bytes: Word, i: int)
    requires UserShape(bs, start, end) && 0 < bytes <= 0xFFFF_FFFC
    ensures Room(bs, end, i, if bytes < 4 then 4 else bytes) <==> 0 <= i < |bs| && Fits(bs, end, i, Rounded(bytes))
  {
    if 0 <= i < |bs| {
      PayloadAligned(bs, start, end, i);
      RoundedNeed(bytes, Payload(bs, end, i));
    }
  }

  /** Carving a block for the rounded request leaves it holding the request. */
  lemma CarveHolds(bs: seq<Block>, start: int, end: int, i: nat, bytes: Word)
    requires UserShape(bs, start, end) && i < |bs| && Fits(bs, end, i, Rounded(bytes)) && 0 < bytes <= 0xFFFF_FFFC
    ensures Holding(Carve(bs, end, i, Rounded(bytes)), end, i, bs[i].addr, if bytes < 4 then 4 else bytes)
  {
    var r := Carve(bs, end, i, Rounded(bytes));
    UserCarve(bs, start, end, i, Rounded(bytes));
    CarvePayload(bs, end, i, Rounded(bytes));
    PayloadAligned(r, start, end, i);
    RoundedNeed(bytes, Payload(r, end, i));
  }

  lemma MallocHonours(h: Heap, start: int, bytes: Word, vm: (int, int) -> bool)
    requires UserShape(h.blocks, start, h.end) && Bounded(vm) && 0 < bytes <= 0xFFFF_FFFC && !GrowthWraps(h, bytes, vm)
    ensures Honours(h, bytes, Heap(MallocBlocks(h, bytes, vm), MallocEnd(h, bytes, vm)), MallocResult(h, bytes, vm))
  {
    var size, need, i := Rounded(bytes), if bytes < 4 then 4 else bytes, FirstFit(h.blocks, h.end, Rounded(bytes));
    forall j ensures Room(h.blocks, h.end, j, need) <==> 0 <= j < |h.blocks| && Fits(h.blocks, h.end, j, size) {
      RoomRounded(h.blocks, start, h.end, bytes, j);
    }
    if i < |h.blocks| {
      CarveHolds(h.blocks, start, h.end, i, bytes);
      assert Room(h.blocks, h.end, i, need);
      forall j | LowestRoom(h.blocks, h.end, j, need) ensures j == i {
        assert i < j ==> Apart(h.blocks, i, j, 0);
      }
    } else if MallocResult(h, bytes, vm) != 0 {
      var r, e := Grown(h.blocks, h.end), h.end + Expansion(size);
      UserGrow(h.blocks, start, h.end, size);
      CarveHolds(r, start, e, |r| - 1, bytes);
    }
  }

  class UserHeap {
    const start: Word // heapStart
    var end: Word // heapEnd
    const store: HeaderStore
    ghost var blocks: seq<Block>

    ghost predicate Valid()
      reads this, store
    {
      UserShape(blocks, start, end) && Linked(store.mem, blocks, 0)
    }

    constructor (start: Word, store: HeaderStore)
      ensures this.start == start && this.store == store
    {
      this.start, this.store, this.end := start, store, start;
    }

    /** malloc_init: asks for one page and makes it one free block. */
    method Init(vm: (int, int) -> bool) returns (ok: bool)
      requires 0 < start
      requires Bounded(vm)
      modifies this, store
      ensures ok <==> vm(start, 1)
      ensures ok ==> Valid() && blocks == [Block(start, false)] && end == start + PAGE_SIZE
    {
      if !vm(start, PAGE_SIZE / PAGE_SIZE) { end := (start + PAGE_SIZE) % ADDRESS_SPACE; return false; }
      end := start + PAGE_SIZE;
      store.NewHeader(start, FREE, 0, 0);
      blocks := [Block(start, false)];
      assert Stored(store.mem, blocks, 0, 0);
      return true;
    }

    /** malloc's walk along the chain: the header of the first free block with room, or 0; then also
        the final header and its free payload. */
    method Scan(size: Word) returns (current: Word, last: Word, freeSpaceAtEnd: Word)
      requires Valid()
      ensures var i := FirstFit(blocks, end, size);
              current == if i == |blocks| then 0 else blocks[i].addr
      ensures current == 0 <==> FirstFit(blocks, end, size) == |blocks|
      ensures current == 0 ==> last == blocks[|blocks| - 1].addr && freeSpaceAtEnd == FreeTail(blocks, end)
    {
      current, last, freeSpaceAtEnd := start, 0, 0;
      ghost var i: nat := 0;
      while current != 0
        invariant i <= |blocks| && current == if i < |blocks| then blocks[i].addr else 0
        invariant current == 0 <==> i == |blocks|
        invariant forall j :: 0 <= j < i ==> !Fits(blocks, end, j, size)
        invariant i < |blocks| ==> freeSpaceAtEnd == 0
        invariant i == |blocks| ==> last == blocks[i - 1].addr && freeSpaceAtEnd == FreeTail(blocks, end)
        decreases |blocks| - i
      {
        InHeap(blocks, start, end, 0, i);
        assert Stored(store.mem, blocks, 0, i);
        var next: Word := store.mem[current + NEXT];
        if store.mem[current + STATUS] == FREE {
          var slotSize: Word := if next == 0 then end - current - HEADER else next - current - HEADER;
          if slotSize >= size {
            assert Fits(blocks, end, i, size);
            return;
          }
          if next == 0 { freeSpaceAtEnd, last := slotSize, current; }
        } else {
          if next == 0 { last := current; }
        }
        current := next;
        i := i + 1;
      }
    }

    /** Cuts what the request leaves of the final block off as a new free block, if a header and the
        minimum payload fit. With `sound` false the arithmetic may wrap and nothing is claimed. */
    method CutTail(current: Word, size: Word, ghost bs: seq<Block>, ghost sound: bool)
      requires HEADER + MIN_PAYLOAD <= end
      requires sound ==> Tiled(bs, start, end, 0) && Linked(store.mem, bs, 0)
      requires sound ==> current == bs[|bs| - 1].addr && current + HEADER + size <= end
      modifies store
      ensures sound ==> Linked(store.mem, Cut(bs, end, |bs| - 1, size), 0)
    {
      var cut: Word := (current + HEADER + size) % ADDRESS_SPACE;
      if cut <= end - HEADER - MIN_PAYLOAD {
        ghost var m := store.mem;
        store.SetNext(current, cut);
        ghost var m1 := store.mem;
        store.NewHeader(cut, FREE, current, 0);
        if sound { AppendLinks(m, m1, store.mem, bs, start, end, 0, cut, false); }
      }
    }

    /** The branch of malloc's scan that has found a free block large enough. */
    method Take(current: Word, size: Word, ghost bs: seq<Block>, ghost i: nat) returns (ret: Word)
      requires 0 < start && Tiled(bs, start, end, 0) && Linked(store.mem, bs, 0)
      requires i < |bs| && current == bs[i].addr && Fits(bs, end, i, size)
      requires HEADER + MIN_PAYLOAD <= end
      modifies store
      ensures Linked(store.mem, Carve(bs, end, i, size), 0)
      ensures ret == current + HEADER
    {
      InHeap(bs, start, end, 0, i);
      ghost var marked := Mark(bs, i, true);
      store.SetStatus(current, USED, bs, start, end, 0, i);
      var next := store.Next(current, marked, 0, i);
      if next == 0 {
        CutTail(current, size, marked, true);
      } else {
        store.Fill(current, next, size, marked, start, end, 0, i);
      }
      ret := current + HEADER;
    }

    /** What malloc does after the heap end has moved: `last` is the final header, `oldEnd` the end before. */
    method Extend(last: Word, oldEnd: Word, size: Word, ghost bs: seq<Block>, ghost sound: bool) returns (ret: Word)
      requires 0 < start && Tiled(bs, start, oldEnd, 0) && Linked(store.mem, bs, 0)
      requires last == bs[|bs| - 1].addr && HEADER + MIN_PAYLOAD <= oldEnd <= end && oldEnd <= TOP
      requires sound ==> oldEnd + HEADER + size <= end
      modifies store
      ensures ret == (if bs[|bs| - 1].used then oldEnd else last) + HEADER
      ensures sound ==> var r := Grown(bs, oldEnd); Linked(store.mem, Carve(r, end, |r| - 1, size), 0)
    {
      ghost var n, r := |bs| - 1, Grown(bs, oldEnd);
      assert Stored(store.mem, bs, 0, n);
      if store.mem[last + STATUS] == FREE {
        store.SetStatus(last, USED, bs, start, oldEnd, 0, n);
        CutTail(last, size, Mark(bs, n, true), sound);
        ret := last + HEADER;
      } else {
        ghost var m := store.mem;
        store.SetNext(last, oldEnd);
        ghost var m1 := store.mem;
        store.NewHeader(oldEnd, USED, last, 0);
        ghost var marked := InsertAt(bs, |bs|, Block(oldEnd, true));
        AppendLinks(m, m1, store.mem, bs, start, oldEnd, 0, oldEnd, true);
        if sound {
          InsertTiled(bs, start, end, 0, n, Block(oldEnd, true));
          assert Mark(r, |r| - 1, true) == marked;
        }
        CutTail(oldEnd, size, marked, sound);
        ret := oldEnd + HEADER;
      }
    }

    method Malloc(bytes: Word, vm: (int, int) -> bool) returns (ret: Word)
      requires Valid()
      requires Bounded(vm)
      modifies this, store
      ensures ret == MallocResult(Heap(old(blocks), old(end)), bytes, vm)
      ensures end == MallocEnd(Heap(old(blocks), old(end)), bytes, vm)
      ensures !GrowthWraps(Heap(old(blocks), old(end)), bytes, vm) ==>
                Valid() && blocks == MallocBlocks(Heap(old(blocks), old(end)), bytes, vm)
      ensures !GrowthWraps(Heap(old(blocks), old(end)), bytes, vm) && 0 < bytes <= 0xFFFF_FFFC ==>
                Honours(Heap(old(blocks), old(end)), bytes, Heap(blocks, end), ret)
      ensures ret == 0 ==> store.mem == old(store.mem)
    {
      ghost var h := Heap(blocks, end);
      ret := Allocate(bytes, vm);
      if 0 < bytes <= 0xFFFF_FFFC && !GrowthWraps(h, bytes, vm) { MallocHonours(h, start, bytes, vm); }
    }

    /** The steps of malloc. */
    method Allocate(bytes: Word, vm: (int, int) -> bool) returns (ret: Word)
      requires Valid()
      requires Bounded(vm)
      modifies this, store
      ensures ret == MallocResult(Heap(old(blocks), old(end)), bytes, vm)
      ensures end == MallocEnd(Heap(old(blocks), old(end)), bytes, vm)
      ensures !GrowthWraps(Heap(old(blocks), old(end)), bytes, vm) ==>
                Valid() && blocks == MallocBlocks(Heap(old(blocks), old(end)), bytes, vm)
      ensures ret == 0 ==> store.mem == old(store.mem)
    {
      if bytes == 0 { return 0; }
      var size := Rounded(bytes);
      var current, last, freeSpaceAtEnd := Scan(size);
      ghost var i := FirstFit(blocks, end, size);
      if current != 0 {
        UserCarve(blocks, start, end, i, size);
        ret := Take(current, size, blocks, i);
        blocks := Carve(blocks, end, i, size);
        return;
      }
      if MayGrow(end, freeSpaceAtEnd, size) {
        if vm(end, Expansion(size) / PAGE_SIZE) {
          ret := Grow(last, size, vm);
          return;
        } else {
          return 0;
        }
      } else {
        return 0;
      }
    }

    /** malloc once the new pages have been granted: moves the heap end and uses the room. */
    method Grow(last: Word, size: Word, vm: (int, int) -> bool) returns (ret: Word)
      requires Valid() && size % 4 == 0
      requires Bounded(vm)
      requires Grows(blocks, end, size, vm) && last == blocks[|blocks| - 1].addr
      modifies this, store
      ensures end == old(end) + Expansion(size)
      ensures var r := Grown(old(blocks), old(end)); ret == r[|r| - 1].addr + HEADER
      ensures size + HEADER <= 0xFFFF_F000 ==>
                var r := Grown(old(blocks), old(end));
                Valid() && blocks == Carve(r, end, |r| - 1, size)
    {
      var expand := Expansion(size);
      ghost var bs, sound := blocks, size + HEADER <= 0xFFFF_F000;
      var oldEnd := end;
      InHeap(bs, start, end, 0, |bs| - 1);
      end := end + expand;
      if sound { UserGrow(bs, start, oldEnd, size); }
      ret := Extend(last, oldEnd, size, bs, sound);
      ghost var r := Grown(bs, oldEnd);
      if sound {
        UserCarve(r, start, end, |r| - 1, size);
        blocks := Carve(r, end, |r| - 1, size);
      }
    }

    method Free(address: Word)
      requires Valid()
      requires HEADER <= address && IsUsed(blocks, address - HEADER)
      modifies this`blocks, store
      ensures Valid()
      ensures blocks == Release(old(blocks), IndexOf(old(blocks), address - HEADER))
    {
      ghost var i := IndexOf(blocks, address - HEADER);
      UserRelease(blocks, start, end, i);
      Unallocate(address - HEADER, blocks, i);
      blocks := Release(blocks, i);
    }

    /** The body of free: frees block i. */
    method Unallocate(current: Word, ghost bs: seq<Block>, ghost i: nat)
      requires 0 < start && end <= TOP && Tiled(bs, start, end, 0) && Linked(store.mem, bs, 0)
      requires i < |bs| && current == bs[i].addr
      modifies store
      ensures Linked(store.mem, Release(bs, i), 0)
    {
      if 0 < i { InHeap(bs, start, end, 0, i - 1); }
      InHeap(bs, start, end, 0, i);
      assert Stored(store.mem, bs, 0, i);
      var previous: Word := store.mem[current + PREV];
      var next: Word := store.mem[current + NEXT];
      store.SetStatus(current, FREE, bs, start, end, 0, i);
      MergeFreed(current, previous, next, Mark(bs, i, false), i);
    }

    /** The rest of free: merges the freed block with free neighbours, left one first. */
    method MergeFreed(current: Word, prev: Word, next: Word, ghost bs: seq<Block>, ghost i: nat)
      requires 0 < start && end <= TOP && Tiled(bs, start, end, 0) && Linked(store.mem, bs, 0)
      requires i < |bs| && !bs[i].used && current == bs[i].addr
      requires if i == 0 then prev == 0 else prev == bs[i - 1].addr != 0
      requires if i + 1 == |bs| then next == 0 else next == bs[i + 1].addr != 0
      modifies store
      ensures Linked(store.mem, Merge(bs, i), 0)
    {
      MergeLeftFirst(bs, i);
      if prev == 0 {
        MergeNext(current, next, bs, i);
      } else {
        var free := store.IsFree(prev, bs, 0, i - 1);
        if free {
          if next == 0 {
            store.DropLast(prev, bs, start, end, 0);
          } else {
            store.Join(prev, next, bs, start, end, 0, i);
            MergeNext(prev, next, RemoveAt(bs, i), i - 1);
          }
        } else {
          MergeNext(current, next, bs, i);
        }
      }
    }

    /** Merges block i with the block after it when there is one and it is free. */
    method MergeNext(b: Word, n: Word, ghost bs: seq<Block>, ghost i: nat)
      requires 0 < start && end <= TOP && Tiled(bs, start, end, 0) && Linked(store.mem, bs, 0)
      requires i < |bs| && b == bs[i].addr
      requires if i + 1 == |bs| then n == 0 else n == bs[i + 1].addr != 0
      modifies store
      ensures Linked(store.mem, if i + 1 == |bs| || bs[i + 1].used then bs else RemoveAt(bs, i + 1), 0)
    {
      if n == 0 { return; }
      assert Stored(store.mem, bs, 0, i + 1);
      if store.mem[n + STATUS] == FREE {
        var next: Word := store.mem[n + NEXT];
        if next == 0 {
          InHeap(bs, start, end, 0, i + 1);
          store.DropLast(b, bs, start, end, 0);
        } else {
          store.Join(b, next, bs, start, end, 0, i + 1);
        }
      }
    }

    /** A client's word store inside the payload of block i disturbs nothing the heap keeps in memory. */
    method ClientStore(a: Word, v: Word, ghost i: nat)
      requires Valid() && i < |blocks|
      requires blocks[i].addr + HEADER <= a && a + WORD <= EndOf(blocks, end, i)
      modifies store
      ensures Valid() && store.mem == Put(old(store.mem), a, v)
    {
      store.PayloadStore(a, v, blocks, start, end, 0, i);
    }
  }
}
