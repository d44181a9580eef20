/** The abstract heap both allocators refine: a list of blocks that tiles an address range.
    A block is a 12-byte header at `addr` followed by a payload that ends where the next
    block starts (or where the heap ends). */
module Blocks {
  const HEADER: int := 12    // sizeof(struct kmallocHeader), sizeof(mheader_t)
  const MIN_PAYLOAD: int := 4 // MIN_BLOCK_SIZE

  datatype Block = Block(addr: int, used: bool)

  /** Address just past block i. */
  function EndOf(bs: seq<Block>, end: int, i: nat): int
    requires i < |bs|
  {
    if i + 1 < |bs| then bs[i + 1].addr else end
  }

  function Payload(bs: seq<Block>, end: int, i: nat): int
    requires i < |bs|
  {
    EndOf(bs, end, i) - bs[i].addr - HEADER
  }

  predicate Fits(bs: seq<Block>, end: int, i: nat, bytes: int)
    requires i < |bs|
  {
    !bs[i].used && bytes <= Payload(bs, end, i)
  }

  /** Block i and `gap` bytes of its payload end before block j starts. */
  ghost predicate Apart(bs: seq<Block>, i: int, j: int, gap: nat)
    requires 0 <= i < |bs| && 0 <= j < |bs|
  {
    bs[i].addr + HEADER + gap <= bs[j].addr
  }

  /** Headers start at `start`, rise strictly, leave `gap` payload bytes between neighbours, and
      the last header lies inside the heap. */
  ghost predicate Tiled(bs: seq<Block>, start: int, end: int, gap: nat) {
    && 0 < |bs|
    && bs[0].addr == start
    && bs[|bs| - 1].addr + HEADER <= end
    && forall i, j :: 0 <= i < j < |bs| ==> Apart(bs, i, j, gap)
  }

  /** Block i or its right neighbour is in use. */
  ghost predicate OneUsed(bs: seq<Block>, i: int)
    requires 0 <= i < |bs| - 1
  {
    bs[i].used || bs[i + 1].used
  }

  /** No two neighbouring blocks are both free. */
  ghost predicate Coalesced(bs: seq<Block>) {
    forall i :: 0 <= i < |bs| - 1 ==> OneUsed(bs, i)
  }

  /** The first free block from index `from` on that can hold `bytes`, or |bs|. */
  function FirstFit(bs: seq<Block>, end: int, bytes: int, from: nat := 0): (r: nat)
    requires from <= |bs|
    ensures from <= r <= |bs|
    ensures r < |bs| ==> Fits(bs, end, r, bytes)
    ensures forall j :: from <= j < r ==> !Fits(bs, end, j, bytes)
    decreases |bs| - from
  {
    if from == |bs| || Fits(bs, end, from, bytes) then from else FirstFit(bs, end, bytes, from + 1)
  }

  function InsertAt(bs: seq<Block>, i: nat, b: Block): (r: seq<Block>)
    requires i <= |bs|
    ensures |r| == |bs| + 1
    ensures forall k :: 0 <= k < |r| ==> r[k] == if k < i then bs[k] else if k == i then b else bs[k - 1]
  {
    seq(|bs| + 1, k requires 0 <= k <= |bs| => if k < i then bs[k] else if k == i then b else bs[k - 1])
  }

  function RemoveAt(bs: seq<Block>, i: nat): (r: seq<Block>)
    requires i < |bs|
    ensures |r| == |bs| - 1
    ensures forall k :: 0 <= k < |r| ==> r[k] == if k < i then bs[k] else bs[k + 1]
  {
    seq(|bs| - 1, k requires 0 <= k < |bs| - 1 => if k < i then bs[k] else bs[k + 1])
  }

  function Mark(bs: seq<Block>, i: nat, used: bool): seq<Block>
    requires i < |bs|
  {
    bs[i := Block(bs[i].addr, used)]
  }

  /** Cut what block i holds past `bytes` off as a new free block, when header and minimum payload fit. */
  function Cut(bs: seq<Block>, end: int, i: nat, bytes: int): seq<Block>
    requires i < |bs|
  {
    var cut := bs[i].addr + HEADER + bytes;
    if EndOf(bs, end, i) - cut < HEADER + MIN_PAYLOAD then bs else InsertAt(bs, i + 1, Block(cut, false))
  }

  /** Mark block i used and cut its tail off. */
  function Carve(bs: seq<Block>, end: int, i: nat, bytes: int): seq<Block>
    requires i < |bs|
  {
    Cut(Mark(bs, i, true), end, i, bytes)
  }

  /** Merge the free block i with free neighbours on either side. */
  function Merge(bs: seq<Block>, i: nat): seq<Block>
    requires i < |bs|
  {
    var right := if i + 1 < |bs| && !bs[i + 1].used then RemoveAt(bs, i + 1) else bs;
    if 0 < i && !bs[i - 1].used then RemoveAt(right, i) else right
  }

  function Release(bs: seq<Block>, i: nat): seq<Block>
    requires i < |bs|
  {
    Merge(Mark(bs, i, false), i)
  }

  lemma RemovesSwap(bs: seq<Block>, i: nat)
    requires i + 1 < |bs|
    ensures RemoveAt(RemoveAt(bs, i), i) == RemoveAt(RemoveAt(bs, i + 1), i)
  {
  }

  /** The merges in the order both allocators make them: first with the left neighbour, then with the right. */
  lemma MergeLeftFirst(bs: seq<Block>, i: nat)
    requires i < |bs|
    ensures Merge(bs, i) ==
            if 0 < i && !bs[i - 1].used then
              var joined := RemoveAt(bs, i);
              if i == |joined| || joined[i].used then joined else RemoveAt(joined, i)
            else if i + 1 == |bs| || bs[i + 1].used then bs
            else RemoveAt(bs, i + 1)
  {
    if i + 1 < |bs| { RemovesSwap(bs, i); }
  }

  // ----- shape of the list -----

  lemma TiledWeaken(bs: seq<Block>, start: int, end: int, gap: nat)
    requires Tiled(bs, start, end, gap)
    ensures Tiled(bs, start, end, 0)
  {
    forall i, j | 0 <= i < j < |bs| ensures Apart(bs, i, j, 0) { assert Apart(bs, i, j, gap); }
  }

  lemma RemoveTiled(bs: seq<Block>, start: int, end: int, gap: nat, i: nat)
    requires Tiled(bs, start, end, gap) && 0 < i < |bs|
    ensures Tiled(RemoveAt(bs, i), start, end, gap)
  {
    var r := RemoveAt(bs, i);
    forall k, l | 0 <= k < l < |r| ensures Apart(r, k, l, gap) {
      assert Apart(bs, if k < i then k else k + 1, if l < i then l else l + 1, gap);
    }
    if i == |bs| - 1 { assert Apart(bs, i - 1, i, gap); }
  }

  lemma InsertTiled(bs: seq<Block>, start: int, end: int, gap: nat, i: nat, b: Block)
    requires Tiled(bs, start, end, gap) && i < |bs|
    requires bs[i].addr + HEADER + gap <= b.addr
    requires if i + 1 < |bs| then b.addr + HEADER + gap <= bs[i + 1].addr else b.addr + HEADER <= end
    ensures Tiled(InsertAt(bs, i + 1, b), start, end, gap)
  {
    var r := InsertAt(bs, i + 1, b);
    forall k, l | 0 <= k < l < |r| ensures Apart(r, k, l, gap) {
      if k == i + 1 { assert l == i + 2 || Apart(bs, i + 1, l - 1, gap); }
      else if l == i + 1 { assert k == i || Apart(bs, k, i, gap); }
      else { assert Apart(bs, if k < i + 1 then k else k - 1, if l < i + 1 then l else l - 1, gap); }
    }
  }

  lemma MarkTiled(bs: seq<Block>, start: int, end: int, gap: nat, i: nat, used: bool)
    requires Tiled(bs, start, end, gap) && i < |bs|
    ensures Tiled(Mark(bs, i, used), start, end, gap)
  {
    var r := Mark(bs, i, used);
    forall k, l | 0 <= k < l < |r| ensures Apart(r, k, l, gap) { assert Apart(bs, k, l, gap); }
  }

  lemma CutTiled(bs: seq<Block>, start: int, end: int, gap: nat, i: nat, cut: int)
    requires Tiled(bs, start, end, gap) && gap <= MIN_PAYLOAD
    requires i < |bs| && bs[i].addr + HEADER + gap <= cut && cut + HEADER + MIN_PAYLOAD <= EndOf(bs, end, i)
    ensures Tiled(InsertAt(bs, i + 1, Block(cut, false)), start, end, gap)
  {
    InsertTiled(bs, start, end, gap, i, Block(cut, false));
  }

  lemma CarveTiled(bs: seq<Block>, start: int, end: int, gap: nat, i: nat, bytes: int)
    requires Tiled(bs, start, end, gap) && gap <= MIN_PAYLOAD
    requires i < |bs| && gap <= bytes
    ensures Tiled(Carve(bs, end, i, bytes), start, end, gap)
  {
    var cut, marked := bs[i].addr + HEADER + bytes, Mark(bs, i, true);
    MarkTiled(bs, start, end, gap, i, true);
    if EndOf(bs, end, i) - cut >= HEADER + MIN_PAYLOAD { CutTiled(marked, start, end, gap, i, cut); }
  }

  lemma CarvePayload(bs: seq<Block>, end: int, i: nat, bytes: int)
    requires i < |bs| && Fits(bs, end, i, bytes)
    ensures var r := Carve(bs, end, i, bytes);
            i < |r| && r[i] == Block(bs[i].addr, true) && bytes <= Payload(r, end, i) < bytes + HEADER + MIN_PAYLOAD
  {
  }

  /** The cut may as well be made before marking. */
  lemma CarveMarked(bs: seq<Block>, end: int, i: nat, bytes: int)
    requires i < |bs|
    ensures Carve(bs, end, i, bytes) == Mark(Cut(bs, end, i, bytes), i, true)
  {
  }

  lemma CarveCoalesced(bs: seq<Block>, end: int, i: nat, bytes: int)
    requires Coalesced(bs) && i < |bs| && !bs[i].used
    ensures Coalesced(Carve(bs, end, i, bytes))
  {
    var r := Carve(bs, end, i, bytes);
    forall k | 0 <= k < |r| - 1 ensures OneUsed(r, k) {
      if k < i || |r| == |bs| { assert OneUsed(bs, k); }
      else if k > i { assert OneUsed(bs, k - 1); }
    }
  }

  lemma ReleaseTiled(bs: seq<Block>, start: int, end: int, gap: nat, i: nat)
    requires Tiled(bs, start, end, gap) && i < |bs|
    ensures Tiled(Release(bs, i), start, end, gap)
  {
    MarkTiled(bs, start, end, gap, i, false);
    MergeTiled(Mark(bs, i, false), start, end, gap, i);
  }

  lemma MergeTiled(bs: seq<Block>, start: int, end: int, gap: nat, i: nat)
    requires Tiled(bs, start, end, gap) && i < |bs|
    ensures Tiled(Merge(bs, i), start, end, gap)
  {
    if i + 1 < |bs| && !bs[i + 1].used { RemoveTiled(bs, start, end, gap, i + 1); }
    var right := if i + 1 < |bs| && !bs[i + 1].used then RemoveAt(bs, i + 1) else bs;
    if 0 < i && !bs[i - 1].used { RemoveTiled(right, start, end, gap, i); }
  }

  /** Where the blocks of a released list come from. */
  lemma ReleaseAt(bs: seq<Block>, i: nat, k: nat)
    requires i < |bs| && k < |Release(bs, i)|
    ensures var r, d := Release(bs, i), if 0 < i && !bs[i - 1].used then i - 1 else i;
            && |r| == |bs| - (i - d) - (if i + 1 < |bs| && !bs[i + 1].used then 1 else 0)
            && (k < d ==> r[k] == bs[k])
            && (k == d ==> !r[k].used && r[k].addr == bs[k].addr)
            && (k > d ==> r[k] == bs[k + |bs| - |r|])
  {
  }

  lemma ReleaseCoalesced(bs: seq<Block>, i: nat)
    requires Coalesced(bs) && i < |bs| && bs[i].used
    ensures Coalesced(Release(bs, i))
  {
    var r := Release(bs, i);
    var d := if 0 < i && !bs[i - 1].used then i - 1 else i;
    var shift := |bs| - |r|;
    forall k | 0 <= k < |r| - 1 ensures OneUsed(r, k) {
      ReleaseAt(bs, i, k);
      ReleaseAt(bs, i, k + 1);
      if k < d { assert OneUsed(bs, k); }
      else if k > d { assert OneUsed(bs, k + shift); }
      else if i + 1 < |bs| && !bs[i + 1].used { assert OneUsed(bs, i + 1); }
    }
  }

  lemma InHeap(bs: seq<Block>, start: int, end: int, gap: nat, i: nat)
    requires Tiled(bs, start, end, gap) && i < |bs|
    ensures start <= bs[i].addr && bs[i].addr + HEADER <= EndOf(bs, end, i) <= end
    ensures i + 1 < |bs| ==> bs[i].addr + HEADER + gap <= bs[i + 1].addr && bs[i + 1].addr + HEADER <= end
    ensures 0 < i ==> start + HEADER <= bs[i].addr && bs[i - 1].addr + HEADER + gap <= bs[i].addr
  {
    assert 0 < i ==> Apart(bs, 0, i, gap) && Apart(bs, i - 1, i, gap);
    assert i + 1 < |bs| ==> Apart(bs, i, i + 1, gap);
    assert i + 1 < |bs| - 1 ==> Apart(bs, i + 1, |bs| - 1, gap);
  }

  // ----- the used address ranges -----

  /** The address ranges of the used blocks: header address and end. */
  ghost function Extents(bs: seq<Block>, end: int): set<(int, int)> {
    set i | 0 <= i < |bs| && bs[i].used :: (bs[i].addr, EndOf(bs, end, i))
  }

  lemma MarkUsedExtents(bs: seq<Block>, end: int, i: nat)
    requires i < |bs|
    ensures Extents(Mark(bs, i, true), end) == Extents(bs, end) + {(bs[i].addr, EndOf(bs, end, i))}
  {
    var r := Mark(bs, i, true);
    forall k | 0 <= k < |bs| ensures r[k].addr == bs[k].addr && EndOf(r, end, k) == EndOf(bs, end, k) {}
  }

  lemma MarkFreeExtents(bs: seq<Block>, start: int, end: int, gap: nat, i: nat)
    requires Tiled(bs, start, end, gap) && i < |bs|
    ensures Extents(Mark(bs, i, false), end) == Extents(bs, end) - {(bs[i].addr, EndOf(bs, end, i))}
  {
    var r := Mark(bs, i, false);
    forall k | 0 <= k < |bs| && k != i ensures bs[k].addr != bs[i].addr {
      if k < i { assert Apart(bs, k, i, gap); } else { assert Apart(bs, i, k, gap); }
    }
    forall k | 0 <= k < |bs| ensures r[k].addr == bs[k].addr && EndOf(r, end, k) == EndOf(bs, end, k) {}
  }

  /** Joining a free block to a free block on its left changes no used range. */
  lemma RemoveExtents(bs: seq<Block>, end: int, i: nat)
    requires 0 < i < |bs| && !bs[i - 1].used && !bs[i].used
    ensures Extents(RemoveAt(bs, i), end) == Extents(bs, end)
  {
    var r := RemoveAt(bs, i);
    forall k: nat | k < |bs| && bs[k].used ensures (bs[k].addr, EndOf(bs, end, k)) in Extents(r, end) {
      RemovedExtent(bs, end, i, k);
    }
    forall m: nat | m < |r| && r[m].used ensures (r[m].addr, EndOf(r, end, m)) in Extents(bs, end) {
      RemovedExtent(bs, end, i, if m < i then m else m + 1);
    }
  }

  lemma RemovedExtent(bs: seq<Block>, end: int, i: nat, k: nat)
    requires 0 < i < |bs| && !bs[i - 1].used && !bs[i].used && k < |bs| && bs[k].used
    ensures var r, m := RemoveAt(bs, i), if k < i then k else k - 1;
            m < |r| && r[m] == bs[k] && EndOf(r, end, m) == EndOf(bs, end, k)
  {
  }

  lemma CarveExtents(bs: seq<Block>, end: int, i: nat, bytes: int)
    requires i < |bs| && !bs[i].used
    ensures var r := Carve(bs, end, i, bytes);
            i < |r| && Extents(r, end) == Extents(bs, end) + {(bs[i].addr, EndOf(r, end, i))}
  {
    var split := Cut(bs, end, i, bytes);
    CarveMarked(bs, end, i, bytes);
    if |bs| < |split| {
      assert RemoveAt(split, i + 1) == bs;
      RemoveExtents(split, end, i + 1);
    }
    MarkUsedExtents(split, end, i);
  }

  lemma ReleaseExtents(bs: seq<Block>, start: int, end: int, gap: nat, i: nat)
    requires Tiled(bs, start, end, gap)
    requires i < |bs| && bs[i].used
    ensures Extents(Release(bs, i), end) == Extents(bs, end) - {(bs[i].addr, EndOf(bs, end, i))}
  {
    MarkFreeExtents(bs, start, end, gap, i);
    var freed := Mark(bs, i, false);
    if i + 1 < |bs| && !bs[i + 1].used { RemoveExtents(freed, end, i + 1); }
    var right := if i + 1 < |bs| && !bs[i + 1].used then RemoveAt(freed, i + 1) else freed;
    if 0 < i && !bs[i - 1].used { RemoveExtents(right, end, i); }
  }

  // ----- the used ranges determine the list -----

  lemma Twin(a: seq<Block>, b: seq<Block>, end: int, k: nat) returns (j: nat)
    requires Extents(a, end) <= Extents(b, end) && k < |a| && a[k].used
    ensures j < |b| && b[j] == a[k] && EndOf(b, end, j) == EndOf(a, end, k)
  {
    assert (a[k].addr, EndOf(a, end, k)) in Extents(b, end);
    j :| 0 <= j < |b| && b[j].used && (b[j].addr, EndOf(b, end, j)) == (a[k].addr, EndOf(a, end, k));
  }

  lemma SameIndex(bs: seq<Block>, start: int, end: int, gap: nat, i: nat, j: nat)
    requires Tiled(bs, start, end, gap) && i < |bs| && j < |bs| && bs[i].addr == bs[j].addr
    ensures i == j
  {
    assert i < j ==> Apart(bs, i, j, gap);
    assert j < i ==> Apart(bs, j, i, gap);
  }

  /** Where two lists agree on a block's address, they agree on its status and on what follows. */
  lemma TwinBlocks(a: seq<Block>, b: seq<Block>, start: int, end: int, gap: nat, k: nat)
    requires Tiled(a, start, end, gap) && Coalesced(a) && Tiled(b, start, end, gap) && Coalesced(b)
    requires Extents(a, end) == Extents(b, end)
    requires k < |a| && k < |b| && a[k].addr == b[k].addr
    ensures a[k].used ==> b[k].used && EndOf(a, end, k) == EndOf(b, end, k)
    ensures !a[k].used && !b[k].used && k + 1 < |a| ==> k + 1 < |b| && b[k + 1].addr <= a[k + 1].addr
  {
    if a[k].used {
      var j := Twin(a, b, end, k);
      SameIndex(b, start, end, gap, j, k);
    } else if k + 1 < |a| && !b[k].used {
      assert OneUsed(a, k) && Apart(a, k, k + 1, gap);
      var j := Twin(a, b, end, k + 1);
      assert j < k ==> Apart(b, j, k, gap);
      assert k + 1 < j ==> Apart(b, k + 1, j, gap);
    }
  }

  lemma AgreeAt(a: seq<Block>, b: seq<Block>, start: int, end: int, gap: nat, k: nat)
    requires Tiled(a, start, end, gap) && Coalesced(a) && Tiled(b, start, end, gap) && Coalesced(b)
    requires Extents(a, end) == Extents(b, end)
    requires k < |a| && k < |b| && a[k].addr == b[k].addr
    ensures a[k] == b[k] && (k + 1 < |a| <==> k + 1 < |b|)
    ensures k + 1 < |a| ==> a[k + 1].addr == b[k + 1].addr
  {
    TwinBlocks(a, b, start, end, gap, k);
    TwinBlocks(b, a, start, end, gap, k);
    assert k + 1 < |a| ==> Apart(a, k + 1, |a| - 1, gap) || k + 2 == |a|;
    assert k + 1 < |b| ==> Apart(b, k + 1, |b| - 1, gap) || k + 2 == |b|;
  }

  lemma {:induction false} CanonicalFrom(a: seq<Block>, b: seq<Block>, start: int, end: int, gap: nat, k: nat)
    requires Tiled(a, start, end, gap) && Coalesced(a) && Tiled(b, start, end, gap) && Coalesced(b)
    requires Extents(a, end) == Extents(b, end)
    requires k < |a| && k < |b| && a[k].addr == b[k].addr
    ensures |a| == |b| && forall m :: k <= m < |a| ==> a[m] == b[m]
    decreases |a| - k
  {
    AgreeAt(a, b, start, end, gap, k);
    if k + 1 < |a| {
      CanonicalFrom(a, b, start, end, gap, k + 1);
    }
  }

  /** A coalesced tiling is determined by its used ranges alone: the header list carries no history. */
  lemma Canonical(a: seq<Block>, b: seq<Block>, start: int, end: int, gap: nat)
    requires Tiled(a, start, end, gap) && Coalesced(a) && Tiled(b, start, end, gap) && Coalesced(b)
    requires Extents(a, end) == Extents(b, end)
    ensures a == b
  {
    CanonicalFrom(a, b, start, end, gap, 0);
  }

  // ----- finding blocks by address -----

  /** The index of the used block at `addr` from `from` on, or |bs|. */
  function Find(bs: seq<Block>, addr: int, from: nat := 0): (r: nat)
    requires from <= |bs|
    ensures from <= r <= |bs| && (r < |bs| ==> bs[r] == Block(addr, true))
    ensures forall j :: from <= j < r ==> bs[j] != Block(addr, true)
    decreases |bs| - from
  {
    if from == |bs| || bs[from] == Block(addr, true) then from else Find(bs, addr, from + 1)
  }

  predicate IsUsed(bs: seq<Block>, addr: int) {
    Find(bs, addr) < |bs|
  }

  function IndexOf(bs: seq<Block>, addr: int): (i: nat)
    requires IsUsed(bs, addr)
    ensures i < |bs| && bs[i] == Block(addr, true)
  {
    Find(bs, addr)
  }

  lemma UsedBlock(bs: seq<Block>, i: nat)
    requires i < |bs| && bs[i].used
    ensures IsUsed(bs, bs[i].addr)
  {
    var r := Find(bs, bs[i].addr);
  }

  // ----- what free undoes, and why order does not matter -----

  /** Freeing the block just carved restores the exact previous list. */
  lemma CarveThenRelease(bs: seq<Block>, start: int, end: int, gap: nat, i: nat, bytes: int)
    requires Tiled(bs, start, end, gap) && Coalesced(bs) && gap <= MIN_PAYLOAD
    requires i < |bs| && gap <= bytes && Fits(bs, end, i, bytes)
    ensures i < |Carve(bs, end, i, bytes)|
    ensures Release(Carve(bs, end, i, bytes), i) == bs
  {
    var r := Carve(bs, end, i, bytes);
    CarveTiled(bs, start, end, gap, i, bytes);
    CarveCoalesced(bs, end, i, bytes);
    CarvePayload(bs, end, i, bytes);
    CarveExtents(bs, end, i, bytes);
    ReleaseTiled(r, start, end, gap, i);
    ReleaseCoalesced(r, i);
    ReleaseExtents(r, start, end, gap, i);
    NotAnExtent(bs, start, end, gap, i, EndOf(r, end, i));
    Canonical(Release(r, i), bs, start, end, gap);
  }

  lemma NotAnExtent(bs: seq<Block>, start: int, end: int, gap: nat, i: nat, e: int)
    requires Tiled(bs, start, end, gap) && i < |bs| && !bs[i].used
    ensures (bs[i].addr, e) !in Extents(bs, end)
  {
    forall k: nat | k < |bs| && bs[k].addr == bs[i].addr ensures k == i { SameIndex(bs, start, end, gap, k, i); }
  }

  lemma ExtentIsUsed(bs: seq<Block>, end: int, addr: int, e: int)
    requires (addr, e) in Extents(bs, end)
    ensures IsUsed(bs, addr)
  {
    var i :| 0 <= i < |bs| && bs[i].used && (bs[i].addr, EndOf(bs, end, i)) == (addr, e);
    UsedBlock(bs, i);
  }

  ghost function Without(ranges: set<(int, int)>, x: int): set<(int, int)> {
    set e | e in ranges && e.0 != x
  }

  /** Everything `Release` promises, for a block named by its address. */
  lemma ReleaseUsed(bs: seq<Block>, start: int, end: int, gap: nat, x: int) returns (r: seq<Block>)
    requires Tiled(bs, start, end, gap) && Coalesced(bs) && IsUsed(bs, x)
    ensures r == Release(bs, IndexOf(bs, x)) && Tiled(r, start, end, gap) && Coalesced(r)
    ensures Extents(r, end) == Without(Extents(bs, end), x)
    ensures forall y :: IsUsed(r, y) <==> y != x && IsUsed(bs, y)
  {
    var i := IndexOf(bs, x);
    var ex := (x, EndOf(bs, end, i));
    r := Release(bs, i);
    ReleaseTiled(bs, start, end, gap, i);
    ReleaseCoalesced(bs, i);
    ReleaseExtents(bs, start, end, gap, i);
    UsedByExtents(bs, r, start, end, gap, ex);
    forall e | e in Extents(bs, end) && e.0 == x ensures e == ex { OneExtent(bs, start, end, gap, e, ex); }
  }

  lemma UsedByExtents(bs: seq<Block>, r: seq<Block>, start: int, end: int, gap: nat, ex: (int, int))
    requires Tiled(bs, start, end, gap) && ex in Extents(bs, end) && Extents(r, end) == Extents(bs, end) - {ex}
    ensures forall y :: IsUsed(r, y) <==> y != ex.0 && IsUsed(bs, y)
  {
    forall y | IsUsed(bs, y) && y != ex.0 ensures IsUsed(r, y) {
      ExtentIsUsed(r, end, y, EndOf(bs, end, IndexOf(bs, y)));
    }
    forall y | IsUsed(r, y) ensures IsUsed(bs, y) && y != ex.0 {
      var e := (y, EndOf(r, end, IndexOf(r, y)));
      assert e in Extents(r, end);
      ExtentIsUsed(bs, end, y, e.1);
      if y == ex.0 { OneExtent(bs, start, end, gap, e, ex); }
    }
  }

  lemma OneExtent(bs: seq<Block>, start: int, end: int, gap: nat, e: (int, int), f: (int, int))
    requires Tiled(bs, start, end, gap) && e in Extents(bs, end) && f in Extents(bs, end) && e.0 == f.0
    ensures e == f
  {
    var i :| 0 <= i < |bs| && e == (bs[i].addr, EndOf(bs, end, i));
    var j :| 0 <= j < |bs| && f == (bs[j].addr, EndOf(bs, end, j));
    SameIndex(bs, start, end, gap, i, j);
  }

  /** Freeing x and then y leaves a coalesced tiling with just those two ranges gone. */
  ghost predicate FreesBoth(bs: seq<Block>, start: int, end: int, gap: nat, x: int, y: int, r: seq<Block>) {
    && Tiled(r, start, end, gap) && Coalesced(r)
    && Extents(r, end) == Without(Without(Extents(bs, end), x), y)
  }

  lemma ReleaseTwice(bs: seq<Block>, start: int, end: int, gap: nat, x: int, y: int)
    requires Tiled(bs, start, end, gap) && Coalesced(bs)
    requires x != y && IsUsed(bs, x) && IsUsed(bs, y)
    ensures var rx := Release(bs, IndexOf(bs, x));
            IsUsed(rx, y) && FreesBoth(bs, start, end, gap, x, y, Release(rx, IndexOf(rx, y)))
  {
    var rx := ReleaseUsed(bs, start, end, gap, x);
    var r := ReleaseUsed(rx, start, end, gap, y);
  }

  lemma FreesBothUnique(bs: seq<Block>, start: int, end: int, gap: nat, x: int, y: int, r: seq<Block>, r': seq<Block>)
    requires FreesBoth(bs, start, end, gap, x, y, r) && FreesBoth(bs, start, end, gap, y, x, r')
    ensures r == r'
  {
    Canonical(r, r', start, end, gap);
  }

  /** Freeing two blocks gives the same list in either order. */
  lemma ReleasesCommute(bs: seq<Block>, start: int, end: int, gap: nat, x: int, y: int)
    requires Tiled(bs, start, end, gap) && Coalesced(bs)
    requires x != y && IsUsed(bs, x) && IsUsed(bs, y)
    ensures var rx, ry := Release(bs, IndexOf(bs, x)), Release(bs, IndexOf(bs, y));
            && IsUsed(rx, y) && IsUsed(ry, x)
            && Release(rx, IndexOf(rx, y)) == Release(ry, IndexOf(ry, x))
  {
    ReleaseTwice(bs, start, end, gap, x, y);
    ReleaseTwice(bs, start, end, gap, y, x);
    var rx, ry := Release(bs, IndexOf(bs, x)), Release(bs, IndexOf(bs, y));
    FreesBothUnique(bs, start, end, gap, x, y, Release(rx, IndexOf(rx, y)), Release(ry, IndexOf(ry, x)));
  }
}
