/** kmalloc and kfree: a first-fit heap over a fixed address range that ends in a sentinel header. */
module KernelMalloc {
  import opened Blocks
  import opened HeaderMemory
  import opened Requests

  const KHEAP_END: Word := 0xF000_0000
  const SENTINEL: Word := 0xF000_0000 - 12

  /** The request after the minimum block size has been applied. */
  function Padded(bytes: int): int {
    if bytes < MIN_PAYLOAD then MIN_PAYLOAD else bytes
  }

  /** Requests kmalloc turns away before it looks at the heap. */
  predicate Rejected(start: int, bytes: int) {
    bytes == 0 || Padded(bytes) > KHEAP_END - start - 2 * HEADER
  }

  /** The kernel heap's shape: a coalesced tiling that ends in the used, empty sentinel. */
  ghost predicate KernelShape(bs: seq<Block>, start: int) {
    && 0 < start < SENTINEL
    && Tiled(bs, start, KHEAP_END, MIN_PAYLOAD)
    && Coalesced(bs)
    && bs[|bs| - 1] == Block(SENTINEL, true)
  }

  /** Every page that holds a byte of [first, first + size] can be mapped. */
  ghost predicate AllGranted(grants: int -> bool, first: int, size: int) {
    forall page :: OnPage(first, size, page) ==> grants(page)
  }

  predicate OnPage(first: int, size: int, page: int) {
    first / PAGE_SIZE <= page <= (first + size) / PAGE_SIZE
  }

  lemma SentinelApart(bs: seq<Block>, start: int, i: nat)
    requires KernelShape(bs, start) && i < |bs| && !bs[i].used
    ensures start <= bs[i].addr < SENTINEL
  {
    InHeap(bs, start, KHEAP_END, MIN_PAYLOAD, i);
    assert Apart(bs, i, |bs| - 1, MIN_PAYLOAD);
  }

  lemma RoomBound(bs: seq<Block>, start: int, i: nat)
    requires KernelShape(bs, start) && i < |bs| && !bs[i].used
    ensures i + 1 < |bs| && Payload(bs, KHEAP_END, i) <= KHEAP_END - start - 2 * HEADER
  {
    SentinelApart(bs, start, i);
    InHeap(bs, start, KHEAP_END, MIN_PAYLOAD, i);
    assert i + 1 < |bs| - 1 ==> Apart(bs, i + 1, |bs| - 1, MIN_PAYLOAD);
  }

  /** What a call of kmalloc for `bytes` comes to: with room for the bytes, and for 4 at least, the lowest block
      that has it is handed out, and its payload is returned if its pages can be mapped; without room, or for no
      bytes at all, the heap stays as it was and null is returned. */
  ghost predicate Serves(bs: seq<Block>, bytes: int, grants: int -> bool, bs': seq<Block>, ret: int) {
    var need := if bytes < 4 then 4 else bytes;
    && (bytes == 0 ==> bs' == bs && ret == 0)
    && (bytes > 0 ==> (bs' == bs <==> forall i :: !Room(bs, KHEAP_END, i, need)))
    && (bs' == bs ==> ret == 0)
    && (bytes > 0 ==>
          forall i :: LowestRoom(bs, KHEAP_END, i, need) ==>
                        var p := bs[i].addr + HEADER;
                        HandedOut(bs, bs', KHEAP_END, i, need) && ret == if MayMap(grants, p, need) then p else 0)
  }

  /** Every page that holds a byte of [first, first + size] can be mapped. */
  ghost predicate MayMap(grants: int -> bool, first: int, size: int) {
    forall page :: first / PAGE_SIZE <= page <= (first + size) / PAGE_SIZE ==> grants(page)
  }

  /** The pages of [first, first + size] up to the first one that cannot be mapped. */
  ghost function Vouched(grants: int -> bool, first: int, size: int): set<int> {
    set page | first / PAGE_SIZE <= page <= (first + size) / PAGE_SIZE && GrantedUpTo(grants, first, page)
  }

  predicate InPages(low: int, high: int, page: int) {
    low <= page < high
  }

  ghost function Pages(low: int, high: int): set<int> {
    set page | low <= page < high && InPages(low, high, page)
  }

  ghost predicate GrantedUpTo(grants: int -> bool, first: int, page: int) {
    forall p :: first / PAGE_SIZE <= p <= page ==> grants(p)
  }

  /** The block list kmalloc leaves behind. */
  function KmallocBlocks(bs: seq<Block>, start: int, bytes: int): seq<Block> {
    var i := FirstFit(bs, KHEAP_END, Padded(bytes));
    if Rejected(start, bytes) || i == |bs| then bs else Carve(bs, KHEAP_END, i, Padded(bytes))
  }

  /** The address whose pages kmalloc asks for: the payload of the block that fits, or 0 when none does. */
  function KmallocTarget(bs: seq<Block>, bytes: int): int {
    var i := FirstFit(bs, KHEAP_END, Padded(bytes));
    if i == |bs| then 0 else bs[i].addr + HEADER
  }

  /** The pointer kmalloc returns: null when nothing fits or a page of the payload cannot be mapped. */
  ghost function KmallocResult(bs: seq<Block>, start: int, bytes: int, grants: int -> bool): int {
    var i := FirstFit(bs, KHEAP_END, Padded(bytes));
    if Rejected(start, bytes) || i == |bs| || !AllGranted(grants, bs[i].addr + HEADER, Padded(bytes)) then 0
    else bs[i].addr + HEADER
  }

  lemma CarveShape(bs: seq<Block>, start: int, i: nat, bytes: int)
    requires KernelShape(bs, start) && i < |bs| && MIN_PAYLOAD <= bytes && Fits(bs, KHEAP_END, i, bytes)
    ensures KernelShape(Carve(bs, KHEAP_END, i, bytes), start)
  {
    CarveTiled(bs, start, KHEAP_END, MIN_PAYLOAD, i, bytes);
    CarveCoalesced(bs, KHEAP_END, i, bytes);
  }

  lemma ReleaseShape(bs: seq<Block>, start: int, i: nat)
    requires KernelShape(bs, start) && i < |bs| - 1 && bs[i].used
    ensures KernelShape(Release(bs, i), start)
  {
    ReleaseTiled(bs, start, KHEAP_END, MIN_PAYLOAD, i);
    ReleaseCoalesced(bs, i);
  }

  lemma KmallocServes(bs: seq<Block>, start: int, bytes: Word, grants: int -> bool)
    requires KernelShape(bs, start)
    ensures Serves(bs, bytes, grants, KmallocBlocks(bs, start, bytes), KmallocResult(bs, start, bytes, grants))
  {
    var need, i := Padded(bytes), FirstFit(bs, KHEAP_END, Padded(bytes));
    forall j | Room(bs, KHEAP_END, j, need) ensures i <= j { assert Fits(bs, KHEAP_END, j, need); }
    if bytes > 0 && i < |bs| {
      RoomBound(bs, start, i);
      CarvePayload(bs, KHEAP_END, i, need);
      InHeap(bs, start, KHEAP_END, MIN_PAYLOAD, i);
      SameMapping(grants, bs[i].addr + HEADER, need);
      var bs', ret := KmallocBlocks(bs, start, bytes), KmallocResult(bs, start, bytes, grants);
      assert Room(bs, KHEAP_END, i, need) && bs'[i] != bs[i];
      assert HandedOut(bs, bs', KHEAP_END, i, need);
      var p := bs[i].addr + HEADER;
      assert ret == if MayMap(grants, p, need) then p else 0;
      forall j | LowestRoom(bs, KHEAP_END, j, need) ensures j == i {
        FirstIsLowest(bs, start, KHEAP_END, MIN_PAYLOAD, j, need);
      }
    }
  }

  lemma SameMapping(grants: int -> bool, first: int, size: int)
    ensures MayMap(grants, first, size) <==> AllGranted(grants, first, size)
  {
    if MayMap(grants, first, size) {
      forall page | OnPage(first, size, page) ensures grants(page) {}
    } else {
      var page :| first / PAGE_SIZE <= page <= (first + size) / PAGE_SIZE && !grants(page);
      assert OnPage(first, size, page);
    }
  }

  lemma VouchedUpTo(grants: int -> bool, first: int, size: int, stop: int)
    requires 0 <= size && first / PAGE_SIZE <= stop <= (first + size) / PAGE_SIZE + 1
    requires forall page :: first / PAGE_SIZE <= page < stop ==> grants(page)
    requires stop == (first + size) / PAGE_SIZE + 1 || !grants(stop)
    ensures Vouched(grants, first, size) == Pages(first / PAGE_SIZE, stop)
    ensures AllGranted(grants, first, size) <==> stop == (first + size) / PAGE_SIZE + 1
  {
    forall page ensures page in Vouched(grants, first, size) <==> page in Pages(first / PAGE_SIZE, stop) {
      assert InPages(first / PAGE_SIZE, stop, page) ==> GrantedUpTo(grants, first, page);
    }
    if stop <= (first + size) / PAGE_SIZE { assert OnPage(first, size, stop); }
  }

  lemma AllVouched(grants: int -> bool, first: int, size: int)
    requires AllGranted(grants, first, size)
    ensures forall page :: OnPage(first, size, page) ==> page in Vouched(grants, first, size)
  {
    forall page | OnPage(first, size, page) ensures GrantedUpTo(grants, first, page) {
      forall p | first / PAGE_SIZE <= p <= page ensures grants(p) { assert OnPage(first, size, p); }
    }
  }

  /** The pages kmalloc vouches for cover the payload it hands out, or, when nothing fits and nothing is
      refused, the pages of address 0. */
  lemma KmallocPages(bs: seq<Block>, start: int, bytes: Word, grants: int -> bool)
    ensures var ret := KmallocResult(bs, start, bytes, grants);
            var pages := Vouched(grants, KmallocTarget(bs, bytes), Padded(bytes));
            && (ret != 0 ==> forall page :: OnPage(ret, bytes, page) ==> page in pages)
            && (KmallocTarget(bs, bytes) == 0 && AllGranted(grants, 0, Padded(bytes)) ==>
                  ret == 0 && forall page :: OnPage(0, Padded(bytes), page) ==> page in pages)
  {
    var first := KmallocTarget(bs, bytes);
    if AllGranted(grants, first, Padded(bytes)) {
      AllVouched(grants, first, Padded(bytes));
      forall page | OnPage(first, bytes, page) ensures OnPage(first, Padded(bytes), page) {}
    }
  }

  class KernelHeap {
    const start: Word // KHEAP_START
    const store: HeaderStore
    var mapped: set<int> // numbers of the pages vmmngr_alloc_page has vouched for
    ghost var blocks: seq<Block>

    ghost predicate Valid()
      reads this, store
    {
      KernelShape(blocks, start) && Linked(store.mem, blocks, SENTINEL)
    }

    constructor (start: Word, store: HeaderStore)
      ensures this.start == start && this.store == store && mapped == {}
    {
      this.start, this.store, this.mapped := start, store, {};
    }

    /** kmalloc_init: maps the two header pages and lays out one free block and the sentinel. */
    method Init(grants: int -> bool) returns (ok: bool)
      requires start % PAGE_SIZE == 0 && 0 < start < KHEAP_END
      modifies this, store
      ensures ok <==> grants(start / PAGE_SIZE) && grants(KHEAP_END / PAGE_SIZE - 1)
      ensures ok ==> Valid() && blocks == [Block(start, false), Block(SENTINEL, true)]
      ensures ok ==> start / PAGE_SIZE in mapped && KHEAP_END / PAGE_SIZE - 1 in mapped
      ensures !ok ==> store.mem == old(store.mem)
    {
      if !grants(start / PAGE_SIZE) { return false; }
      mapped := mapped + {start / PAGE_SIZE};
      if !grants(KHEAP_END / PAGE_SIZE - 1) { return false; }
      mapped := mapped + {KHEAP_END / PAGE_SIZE - 1};

      store.NewHeader(start, FREE, 0, SENTINEL);
      store.NewHeader(SENTINEL, USED, start, SENTINEL);
      blocks := [Block(start, false), Block(SENTINEL, true)];
      return true;
    }

    method Kmalloc(bytes: Word, grants: int -> bool) returns (ret: Word)
      requires Valid()
      modifies this, store
      ensures Valid()
      ensures blocks == KmallocBlocks(old(blocks), start, bytes)
      ensures ret == KmallocResult(old(blocks), start, bytes, grants)
      ensures Serves(old(blocks), bytes, grants, blocks, ret)
      ensures mapped == old(mapped) + if Rejected(start, bytes) then {}
                        else Vouched(grants, KmallocTarget(old(blocks), bytes), Padded(bytes))
      ensures ret != 0 ==> forall page :: OnPage(ret, bytes, page) ==> page in mapped
      ensures !Rejected(start, bytes) && KmallocTarget(old(blocks), bytes) == 0 &&
              AllGranted(grants, 0, Padded(bytes)) ==>
                ret == 0 && forall page :: OnPage(0, Padded(bytes), page) ==> page in mapped
    {
      KmallocPages(blocks, start, bytes, grants);
      KmallocServes(blocks, start, bytes, grants);
      if bytes == 0 { return 0; }
      var size := bytes;
      if size < MIN_PAYLOAD { size := MIN_PAYLOAD; }
      if size > KHEAP_END - start - 2 * HEADER { return 0; }

      var current := Scan(size);
      var retVal: Word := 0;
      if current != 0 {
        ghost var i := FirstFit(blocks, KHEAP_END, size);
        TiledWeaken(blocks, start, KHEAP_END, MIN_PAYLOAD);
        CarveShape(blocks, start, i, size);
        InHeap(blocks, start, KHEAP_END, MIN_PAYLOAD, i);
        retVal := Take(current, size, blocks, i);
        blocks := Carve(blocks, KHEAP_END, i, size);
      }
      var ok := MapPages(retVal, size, grants);
      if !ok { return 0; }
      return retVal;
    }

    /** kmalloc's walk along the chain: the header of the first free block with room, or 0. */
    method Scan(size: Word) returns (current: Word)
      requires Valid() && size <= KHEAP_END
      ensures var i := FirstFit(blocks, KHEAP_END, size);
              current == if i == |blocks| then 0 else blocks[i].addr
      ensures current == 0 <==> FirstFit(blocks, KHEAP_END, size) == |blocks|
    {
      current := start;
      ghost var i: nat := 0;
      while current < SENTINEL
        invariant i < |blocks| && start <= current == blocks[i].addr
        invariant forall j :: 0 <= j < i ==> !Fits(blocks, KHEAP_END, j, size)
        decreases KHEAP_END - current
      {
        InHeap(blocks, start, KHEAP_END, MIN_PAYLOAD, i);
        assert Stored(store.mem, blocks, SENTINEL, i);
        if store.mem[current + STATUS] == FREE {
          if store.mem[current + NEXT] - current >= HEADER + size {
            assert Fits(blocks, KHEAP_END, i, size);
            return;
          }
          current := store.mem[current + NEXT];
        } else {
          current := store.mem[current + NEXT];
        }
        i := i + 1;
      }
      InHeap(blocks, start, KHEAP_END, MIN_PAYLOAD, i);
      SameIndex(blocks, start, KHEAP_END, MIN_PAYLOAD, i, |blocks| - 1);
      current := 0;
    }

    /** The mapping loop at the end of kmalloc: asks for every page of [first, first + size]. */
    method MapPages(first: Word, size: Word, grants: int -> bool) returns (ok: bool)
      requires first + size + PAGE_SIZE < ADDRESS_SPACE
      modifies this`mapped
      ensures ok <==> AllGranted(grants, first, size)
      ensures mapped == old(mapped) + Vouched(grants, first, size)
    {
      ghost var before := mapped;
      var addr: Word := first;
      while addr - addr % PAGE_SIZE <= first + size
        invariant first <= addr && addr % PAGE_SIZE == first % PAGE_SIZE
        invariant addr / PAGE_SIZE <= (first + size) / PAGE_SIZE + 1
        invariant forall page :: first / PAGE_SIZE <= page < addr / PAGE_SIZE ==> grants(page)
        invariant mapped == before + Pages(first / PAGE_SIZE, addr / PAGE_SIZE)
        decreases first + size + PAGE_SIZE - addr
      {
        if !grants(addr / PAGE_SIZE) {
          VouchedUpTo(grants, first, size, addr / PAGE_SIZE);
          return false;
        }
        mapped := mapped + {addr / PAGE_SIZE};
        addr := addr + PAGE_SIZE;
      }
      VouchedUpTo(grants, first, size, addr / PAGE_SIZE);
      return true;
    }

    /** The branch of kmalloc's scan that has found a free block large enough: marks it used, and cuts
        its tail off as a new free block when there is room for one. */
    method Take(current: Word, bytes: Word, ghost bs: seq<Block>, ghost i: nat) returns (retVal: Word)
      requires Tiled(bs, start, KHEAP_END, 0) && Linked(store.mem, bs, SENTINEL)
      requires i < |bs| - 1 && current == bs[i].addr && Fits(bs, KHEAP_END, i, bytes)
      modifies store
      ensures Linked(store.mem, Carve(bs, KHEAP_END, i, bytes), SENTINEL)
      ensures retVal == current + HEADER
    {
      InHeap(bs, start, KHEAP_END, 0, i);
      ghost var marked := Mark(bs, i, true);
      store.SetStatus(current, USED, bs, start, KHEAP_END, SENTINEL, i);
      var next := store.Next(current, marked, SENTINEL, i);
      store.Fill(current, next, bytes, marked, start, KHEAP_END, SENTINEL, i);
      retVal := current + HEADER;
    }

    method Kfree(address: Word)
      requires Valid()
      requires HEADER <= address && address - HEADER != SENTINEL && IsUsed(blocks, address - HEADER)
      modifies this`blocks, store
      ensures Valid()
      ensures blocks == Release(old(blocks), IndexOf(old(blocks), address - HEADER))
    {
      ghost var i := IndexOf(blocks, address - HEADER);
      TiledWeaken(blocks, start, KHEAP_END, MIN_PAYLOAD);
      ReleaseShape(blocks, start, i);
      Unallocate(address - HEADER, blocks, i);
      blocks := Release(blocks, i);
    }

    /** The body of kfree: frees block i. */
    method Unallocate(current: Word, ghost bs: seq<Block>, ghost i: nat)
      requires 0 < start && Tiled(bs, start, KHEAP_END, 0) && Linked(store.mem, bs, SENTINEL)
      requires i + 1 < |bs| && bs[|bs| - 1].used && current == bs[i].addr
      modifies store
      ensures Linked(store.mem, Release(bs, i), SENTINEL)
    {
      if 0 < i { InHeap(bs, start, KHEAP_END, 0, i - 1); }
      assert Stored(store.mem, bs, SENTINEL, i);
      var previous: Word := store.mem[current + PREV];
      var next: Word := store.mem[current + NEXT];
      store.SetStatus(current, FREE, bs, start, KHEAP_END, SENTINEL, i);
      MergeFreed(current, previous, next, Mark(bs, i, false), i);
    }

    /** The rest of kfree: merges the freed block with free neighbours, left one first. */
    method MergeFreed(current: Word, previous: Word, next: Word, ghost bs: seq<Block>, ghost i: nat)
      requires Tiled(bs, start, KHEAP_END, 0) && Linked(store.mem, bs, SENTINEL)
      requires i + 1 < |bs| && bs[|bs| - 1].used && !bs[i].used
      requires current == bs[i].addr && next == bs[i + 1].addr
      requires if i == 0 then previous == 0 else previous == bs[i - 1].addr != 0
      modifies store
      ensures Linked(store.mem, Merge(bs, i), SENTINEL)
    {
      MergeLeftFirst(bs, i);
      if previous != 0 {
        var free := store.IsFree(previous, bs, SENTINEL, i - 1);
        if free {
          store.Join(previous, next, bs, start, KHEAP_END, SENTINEL, i);
          MergeNext(previous, next, RemoveAt(bs, i), i - 1);
        } else {
          MergeNext(current, next, bs, i);
        }
      } else {
        MergeNext(current, next, bs, i);
      }
    }

    /** Merges block i with the block after it when that one is free. */
    method MergeNext(b: Word, n: Word, ghost bs: seq<Block>, ghost i: nat)
      requires Tiled(bs, start, KHEAP_END, 0) && Linked(store.mem, bs, SENTINEL)
      requires i + 2 < |bs| || (i + 1 < |bs| && bs[i + 1].used)
      requires b == bs[i].addr && n == bs[i + 1].addr
      modifies store
      ensures Linked(store.mem, if bs[i + 1].used then bs else RemoveAt(bs, i + 1), SENTINEL)
    {
      assert Stored(store.mem, bs, SENTINEL, i + 1);
      if store.mem[n + STATUS] == FREE {
        var next: Word := store.mem[n + NEXT];
        store.Join(b, next, bs, start, KHEAP_END, SENTINEL, i + 1);
      }
    }

    /** A client's word store inside the payload of block i disturbs nothing the heap keeps in memory. */
    method ClientStore(a: Word, v: Word, ghost i: nat)
      requires Valid() && i < |blocks|
      requires blocks[i].addr + HEADER <= a && a + WORD <= EndOf(blocks, KHEAP_END, i)
      modifies store
      ensures Valid() && store.mem == Put(old(store.mem), a, v)
    {
      TiledWeaken(blocks, start, KHEAP_END, MIN_PAYLOAD);
      store.PayloadStore(a, v, blocks, start, KHEAP_END, SENTINEL, i);
    }
  }
}
