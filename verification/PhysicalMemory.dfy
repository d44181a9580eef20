/** The physical memory manager: a bitmap with one bit for each 4 KiB block. */
module PhysicalMemory {
  const BLOCK_SIZE: int := 4096
  const BITMAP_WORDS: int := 0x1_0000 // the 256 KiB reserved for the bitmap
  const BITS: int := 32 * BITMAP_WORDS
  const MAX_BLOCKS: int := 0x10_0000 // blocks in a 32-bit physical address space
  const WRAP: int := 0x1_0000_0000

  type Word = x: int | 0 <= x < WRAP

  /** One 32-bit word of the bitmap, bit j at index j. */
  type Bits = w: seq<bool> | |w| == 32 witness seq(32, _ => false)

  /** 0xFFFFFFFF */
  const ALL_USED: Bits := seq(32, _ => true)

  // ----- bits of the whole bitmap -----

  predicate Marked(words: seq<Bits>, b: int)
    requires |words| == BITMAP_WORDS && 0 <= b < BITS
  {
    words[b / 32][b % 32]
  }

  /** The blocks marked used. */
  ghost function UsedSet(words: seq<Bits>): set<int>
    requires |words| == BITMAP_WORDS
  {
    set b | 0 <= b < BITS && Marked(words, b)
  }

  lemma WriteBit(words: seq<Bits>, b: int, v: bool)
    requires |words| == BITMAP_WORDS && 0 <= b < BITS
    ensures UsedSet(words[b / 32 := words[b / 32][b % 32 := v]]) ==
            if v then UsedSet(words) + {b} else UsedSet(words) - {b}
  {
    var r := words[b / 32 := words[b / 32][b % 32 := v]];
    forall c | 0 <= c < BITS ensures Marked(r, c) == if c == b then v else Marked(words, c) {}
  }

  // ----- the searches, on the set of used blocks -----

  /** The lowest block below `limit`, from `from` on, that is not in use; `limit` if there is none. */
  function FirstClear(used: set<int>, limit: nat, from: nat := 0): (r: nat)
    requires from <= limit
    ensures from <= r <= limit && (r < limit ==> r !in used)
    ensures forall b :: from <= b < r ==> b in used
    decreases limit - from
  {
    if from == limit || from !in used then from else FirstClear(used, limit, from + 1)
  }

  ghost predicate InRun(b: int, base: int, amount: int) {
    base <= b < base + amount
  }

  /** Blocks base .. base + amount - 1. */
  ghost function Run(base: int, amount: nat): set<int>
    ensures forall b :: b in Run(base, amount) <==> InRun(b, base, amount)
    decreases amount
  {
    if amount == 0 then {} else Run(base, amount - 1) + {base + amount - 1}
  }

  /** mmap_test's answer: a bit past the block count reads as used, the bit at the count is still read. */
  ghost predicate Tests(used: set<int>, max: int, b: int) {
    b > max || b in used
  }

  ghost predicate WordFull(used: set<int>, i: int) {
    forall b :: 32 * i <= b < 32 * i + 32 ==> b in used
  }

  /** Clear bits from `base` on, up to `amount` of them. */
  ghost function ClearCount(used: set<int>, max: int, base: int, amount: nat): (n: nat)
    ensures n <= amount
    decreases amount
  {
    if amount == 0 || Tests(used, max, base) then 0 else 1 + ClearCount(used, max, base + 1, amount - 1)
  }

  /** What the multi-block search comes up with from bit k of word i on: after a run that is too short it
      goes on behind the bit that ended it, but not in that bit's word if the run crossed into it. */
  ghost function RunScan(used: set<int>, max: nat, amount: nat, i: nat, k: nat): nat
    decreases max / 32 - i, 32 - k
  {
    if i >= max / 32 then 0
    else if k >= 32 || (k == 0 && WordFull(used, i)) then RunScan(used, max, amount, i + 1, 0)
    else
      var n := ClearCount(used, max, 32 * i + k, amount);
      if 0 < n == amount then 32 * i + k
      else RunScan(used, max, amount, i + (k + n) / 32, k + n + 1)
  }

  /** One turn of the search at bit k: the run from there is long enough, or the search goes on behind it. */
  lemma ScanTurn(used: set<int>, max: nat, amount: nat, i: nat, k: nat, n: nat, i': nat, k': nat)
    requires i < max / 32 && k < 32 && !WordFull(used, i) && k' == k + n + 1
    requires n == ClearCount(used, max, 32 * i + k, amount)
    requires i' == if k + n > 31 then i + (k + n) / 32 else i
    ensures RunScan(used, max, amount, i, k) ==
            if 0 < n == amount then 32 * i + k else RunScan(used, max, amount, i', k')
  {
  }

  lemma ScanPast(used: set<int>, max: nat, amount: nat, i: nat, k: nat)
    requires k >= 32
    ensures RunScan(used, max, amount, i, k) == RunScan(used, max, amount, i + 1, 0)
  {
  }

  /** A run of free blocks that ends inside the managed blocks whenever the bit at the block count is set.
      The count's own bit is read, though there is no such block. */
  ghost predicate FreeRun(used: set<int>, max: int, base: int, amount: int) {
    && 0 < base && 0 < amount && base + amount <= max + 1
    && Run(base, amount) !! used
    && (max in used ==> base + amount <= max)
  }

  lemma {:induction false} RunScanSound(used: set<int>, max: nat, amount: nat, i: nat, k: nat)
    ensures var base := RunScan(used, max, amount, i, k); base != 0 ==> FreeRun(used, max, base, amount)
    decreases max / 32 - i, 32 - k, 1
  {
    if i < max / 32 {
      if k >= 32 || (k == 0 && WordFull(used, i)) { RunScanSound(used, max, amount, i + 1, 0); }
      else { SoundAt(used, max, amount, i, k, ClearCount(used, max, 32 * i + k, amount)); }
    }
  }

  lemma {:induction false} SoundAt(used: set<int>, max: nat, amount: nat, i: nat, k: nat, n: nat)
    requires i < max / 32 && k < 32 && n == ClearCount(used, max, 32 * i + k, amount)
    ensures 0 < n == amount && 32 * i + k != 0 ==> FreeRun(used, max, 32 * i + k, amount)
    ensures n == 0 || n != amount ==>
              var base := RunScan(used, max, amount, i + (k + n) / 32, k + n + 1);
              base != 0 ==> FreeRun(used, max, base, amount)
    decreases max / 32 - i, 32 - k, 0
  {
    if 0 < n == amount { ClearIsFree(used, max, 32 * i + k, amount); }
    else { RunScanSound(used, max, amount, i + (k + n) / 32, k + n + 1); }
  }

  lemma {:induction false} ClearMeans(used: set<int>, max: int, base: int, amount: nat)
    ensures var n := ClearCount(used, max, base, amount);
            && (forall b :: base <= b < base + n ==> !Tests(used, max, b))
            && (n < amount ==> Tests(used, max, base + n))
    decreases amount
  {
    if amount > 0 && !Tests(used, max, base) { ClearMeans(used, max, base + 1, amount - 1); }
  }

  lemma ClearIsFree(used: set<int>, max: int, base: int, amount: nat)
    requires 0 <= base && 0 < amount && ClearCount(used, max, base, amount) == amount
    ensures base != 0 ==> FreeRun(used, max, base, amount)
  {
    ClearMeans(used, max, base, amount);
    assert !Tests(used, max, base + amount - 1);
    forall b | b in Run(base, amount) ensures b !in used { assert InRun(b, base, amount) && !Tests(used, max, b); }
  }

  /** 32-bit round-up to a whole block, as both region functions do it. */
  function RoundUp(x: Word): (r: Word)
    ensures r % BLOCK_SIZE == 0 && r / BLOCK_SIZE < MAX_BLOCKS
    ensures x + BLOCK_SIZE <= WRAP ==> x <= r < x + BLOCK_SIZE
  {
    if x % BLOCK_SIZE == 0 then x
    else var y := (x + BLOCK_SIZE) % WRAP; y - y % BLOCK_SIZE
  }

  /** One more step of a wrapping counter. */
  lemma CountStep(x: int, k: int)
    ensures ((x + k) % WRAP + 1) % WRAP == (x + k + 1) % WRAP
    ensures ((x + k) % WRAP - 1) % WRAP == (x + k - 1) % WRAP
  {
  }

  lemma WrapMinus(x: int, k: int)
    ensures (x % WRAP - k) % WRAP == (x - k) % WRAP
  {
  }

  class FrameAllocator {
    const bitmap: array<Bits>
    var usedBlocks: Word
    var maxBlocks: nat

    ghost predicate Sized()
      reads this`maxBlocks
    {
      bitmap.Length == BITMAP_WORDS && maxBlocks <= MAX_BLOCKS
    }

    ghost function Used(): set<int>
      requires Sized()
      reads this`maxBlocks, bitmap
    {
      UsedSet(bitmap[..])
    }

    /** Block 0 is marked, so that the address 0 can mean failure. */
    ghost predicate Valid()
      reads this`maxBlocks, bitmap
    {
      Sized() && 0 in Used()
    }

    constructor (bitmap: array<Bits>)
      requires bitmap.Length == BITMAP_WORDS
      ensures Sized() && this.bitmap == bitmap && usedBlocks == 0 && maxBlocks == 0
    {
      this.bitmap, usedBlocks, maxBlocks := bitmap, 0, 0;
    }

    /** pmmngr_init: everything below the block count, in whole words, starts out used. */
    method Init(memSize: Word)
      requires Sized()
      modifies this, bitmap
      ensures Sized() && maxBlocks == memSize / BLOCK_SIZE && usedBlocks == maxBlocks
      ensures forall b :: 0 <= b < maxBlocks / 32 * 32 ==> b in Used()
    {
      maxBlocks := memSize / BLOCK_SIZE;
      usedBlocks := maxBlocks;
      for i := 0 to maxBlocks / 32
        invariant forall k :: 0 <= k < i ==> bitmap[k] == ALL_USED
        modifies bitmap
      {
        bitmap[i] := ALL_USED;
      }
      forall b | 0 <= b < maxBlocks / 32 * 32 ensures b in Used() {}
    }

    method Set(b: int)
      requires Sized() && 0 <= b < BITS
      modifies bitmap
      ensures Used() == old(Used()) + {b}
    {
      WriteBit(bitmap[..], b, true);
      ghost var words := bitmap[..];
      bitmap[b / 32] := bitmap[b / 32][b % 32 := true];
      assert bitmap[..] == words[b / 32 := words[b / 32][b % 32 := true]];
    }

    method Unset(b: int)
      requires Sized() && 0 <= b < BITS
      modifies bitmap
      ensures Used() == old(Used()) - {b}
    {
      WriteBit(bitmap[..], b, false);
      ghost var words := bitmap[..];
      bitmap[b / 32] := bitmap[b / 32][b % 32 := false];
      assert bitmap[..] == words[b / 32 := words[b / 32][b % 32 := false]];
    }

    method Test(b: int) returns (r: bool)
      requires Sized() && 0 <= b
      ensures r == Tests(Used(), maxBlocks, b)
    {
      if b > maxBlocks { return true; }
      return bitmap[b / 32][b % 32];
    }

    /** pmmngr_init_region: frees the blocks of a region, then marks block 0 again. */
    method InitRegion(base: Word, size: Word)
      requires Sized()
      modifies this`usedBlocks, bitmap
      ensures Valid()
      ensures Used() == old(Used()) - Run(RoundUp(base) / BLOCK_SIZE, RoundUp(size) / BLOCK_SIZE) + {0}
      ensures usedBlocks == (old(usedBlocks) - RoundUp(size) / BLOCK_SIZE) % WRAP
    {
      FreeRange(RoundUp(base) / BLOCK_SIZE, RoundUp(size) / BLOCK_SIZE);
      Set(0);
    }

    /** The loop of pmmngr_init_region. */
    method FreeRange(first: nat, total: nat)
      requires Sized() && first + total <= BITS
      modifies this`usedBlocks, bitmap
      ensures Used() == old(Used()) - Run(first, total) && usedBlocks == (old(usedBlocks) - total) % WRAP
    {
      var start, blocks := first, total;
      ghost var k, used, count := 0, Used(), usedBlocks;
      while blocks > 0
        invariant 0 <= k && start == first + k && blocks == total - k >= 0
        invariant Used() == used - Run(first, k) && usedBlocks == (count - k) % WRAP
      {
        CountStep(count, -k);
        k := k + 1;
        Unset(start);
        start := start + 1;
        usedBlocks := (usedBlocks - 1) % WRAP;
        blocks := blocks - 1;
      }
    }

    /** pmmngr_deinit_region: marks the blocks of a region used; the base is rounded down. */
    method DeinitRegion(base: Word, size: Word)
      requires Sized()
      modifies this`usedBlocks, bitmap
      ensures Used() == old(Used()) + Run(base / BLOCK_SIZE, RoundUp(size) / BLOCK_SIZE)
      ensures usedBlocks == (old(usedBlocks) + RoundUp(size) / BLOCK_SIZE) % WRAP
    {
      MarkRange(base / BLOCK_SIZE, RoundUp(size) / BLOCK_SIZE);
    }

    /** The loop of pmmngr_deinit_region. */
    method MarkRange(first: nat, total: nat)
      requires Sized() && first + total <= BITS
      modifies this`usedBlocks, bitmap
      ensures Used() == old(Used()) + Run(first, total) && usedBlocks == (old(usedBlocks) + total) % WRAP
    {
      var start, blocks := first, total;
      ghost var k, used, count := 0, Used(), usedBlocks;
      while blocks > 0
        invariant 0 <= k && start == first + k && blocks == total - k >= 0
        invariant Used() == used + Run(first, k) && usedBlocks == (count + k) % WRAP
      {
        CountStep(count, k);
        k := k + 1;
        Set(start);
        start := start + 1;
        usedBlocks := (usedBlocks + 1) % WRAP;
        blocks := blocks - 1;
      }
    }

    /** mmap_first_free: the lowest clear bit of the bitmap's whole words, or 0. */
    method FirstFree() returns (block: int)
      requires Sized()
      ensures var n := maxBlocks / 32 * 32;
              block == if FirstClear(Used(), n) == n then 0 else FirstClear(Used(), n)
    {
      ghost var n := maxBlocks / 32 * 32;
      for i := 0 to maxBlocks / 32
        invariant forall b :: 0 <= b < i * 32 ==> b in Used()
      {
        if bitmap[i] != ALL_USED {
          for j := 0 to 32
            invariant forall b :: 0 <= b < i * 32 + j ==> b in Used()
          {
            if !bitmap[i][j] {
              assert i * 32 + j !in Used();
              return i * 32 + j;
            }
          }
        }
        assert forall b :: i * 32 <= b < i * 32 + 32 ==> b in Used();
      }
      return 0;
    }

    /** pmmngr_alloc_block: the lowest block that is not in use, as a block number, or 0. */
    method AllocBlock() returns (block: int)
      requires Valid()
      modifies this`usedBlocks, bitmap
      ensures Valid()
      ensures block == AllocResult(old(Used()), maxBlocks, old(usedBlocks))
      ensures block != 0 <==> old(usedBlocks) != maxBlocks && old(SomeFree(Used(), maxBlocks))
      ensures block != 0 ==> IsLowest(old(Used()), block)
      ensures block == 0 ==> Used() == old(Used()) && usedBlocks == old(usedBlocks)
      ensures block != 0 ==> Used() == old(Used()) + {block} && usedBlocks == (old(usedBlocks) + 1) % WRAP
    {
      AllocResultExact(Used(), maxBlocks, usedBlocks);
      if (maxBlocks - usedBlocks) % WRAP <= 0 { return 0; }
      block := FirstFree();
      if block == 0 { return 0; }
      Set(block);
      usedBlocks := (usedBlocks + 1) % WRAP;
    }

    /** pmmngr_free_block. Freeing block 0 is not refused: then 0 no longer means failure. */
    method FreeBlock(block: int)
      requires Sized() && 0 <= block < BITS
      modifies this`usedBlocks, bitmap
      ensures Used() == old(Used()) - {block} && usedBlocks == (old(usedBlocks) - 1) % WRAP
      ensures old(Valid()) ==> (Valid() <==> block != 0)
    {
      Unset(block);
      usedBlocks := (usedBlocks - 1) % WRAP;
    }

    /** The innermost loop of mmap_first_free_s: counts clear bits from `base` on until there are
        `amount` of them or one is set. */
    method CountClear(base: int, amount: Word) returns (found: bool, free: nat)
      requires Sized() && 0 <= base
      ensures free == ClearCount(Used(), maxBlocks, base, amount) && found == (0 < free == amount)
    {
      ghost var used := Used();
      found, free := false, 0;
      var j := 0;
      while j < amount
        invariant 0 <= j <= amount && free == j && (amount == 0 || j < amount)
        invariant ClearCount(used, maxBlocks, base, amount) == j + ClearCount(used, maxBlocks, base + j, amount - j)
      {
        var t := Test(base + j);
        if t { break; }
        free := free + 1;
        if free == amount { return true, free; }
        j := j + 1;
      }
    }

    /** mmap_first_free_s. The scan skips bits, so it may miss a run that exists; a run it does return is
        clear, and inside the managed blocks unless the bit at the block count is clear. */
    method FirstFreeRun(amount: Word) returns (base: int)
      requires Sized()
      ensures base == RunScan(Used(), maxBlocks, amount, 0, 0)
      ensures base != 0 ==> FreeRun(Used(), maxBlocks, base, amount)
    {
      ghost var used := Used();
      RunScanSound(used, maxBlocks, amount, 0, 0);
      var i := 0;
      while i < maxBlocks / 32
        invariant 0 <= i && RunScan(used, maxBlocks, amount, 0, 0) == RunScan(used, maxBlocks, amount, i, 0)
        decreases maxBlocks / 32 - i
      {
        var full := FullWord(i);
        if !full {
          var found;
          found, base, i := ScanWord(amount, i);
          if found { return base; }
        }
        i := i + 1;
      }
      return 0;
    }

    /** The loop of mmap_first_free_s over the bits of one word. It may end in a later word. */
    method ScanWord(amount: Word, start: nat) returns (found: bool, base: int, i: nat)
      requires Sized() && start < maxBlocks / 32 && !WordFull(Used(), start)
      ensures start <= i
      ensures found ==> base == RunScan(Used(), maxBlocks, amount, start, 0)
      ensures !found ==> RunScan(Used(), maxBlocks, amount, start, 0) == RunScan(Used(), maxBlocks, amount, i + 1, 0)
    {
      ghost var used := Used();
      found, base, i := false, 0, start;
      var k: nat := 0;
      while k < 32
        invariant start <= i && (k < 32 ==> i == start)
        invariant RunScan(used, maxBlocks, amount, start, 0) == RunScan(used, maxBlocks, amount, i, k)
        decreases 32 - k
      {
        base := i * 32 + k;
        found, i, k := ScanBit(amount, i, k);
        if found { return; }
      }
      ScanPast(used, maxBlocks, amount, i, k);
    }

    /** One turn of that loop, at bit k. */
    method ScanBit(amount: Word, i: nat, k: nat) returns (found: bool, i': nat, k': nat)
      requires Sized() && i < maxBlocks / 32 && k < 32 && !WordFull(Used(), i)
      ensures found ==> RunScan(Used(), maxBlocks, amount, i, k) == i * 32 + k
      ensures !found ==> RunScan(Used(), maxBlocks, amount, i, k) == RunScan(Used(), maxBlocks, amount, i', k')
      ensures k < k' && i <= i' && (k' < 32 ==> i' == i)
    {
      found, i', k' := false, i, k + 1;
      var free: nat := 0;
      var first := Test(i * 32 + k);
      if !first {
        found, free := CountClear(i * 32 + k, amount);
        k' := k + free + 1;
        if k + free > 31 { i' := i + (k + free) / 32; }
      }
      ScanTurn(Used(), maxBlocks, amount, i, k, free, i', k');
    }

    /** The test that lets both searches pass over a word. */
    method FullWord(i: int) returns (full: bool)
      requires Sized() && 0 <= i < maxBlocks / 32
      ensures full == WordFull(Used(), i)
    {
      full := bitmap[i] == ALL_USED;
      if full {
        forall b | 32 * i <= b < 32 * i + 32 ensures b in Used() { assert Marked(bitmap[..], b); }
      } else {
        ghost var j :| 0 <= j < 32 && !bitmap[i][j];
        assert !Marked(bitmap[..], 32 * i + j);
        assert 32 * i + j !in Used();
      }
    }

    /** pmmngr_alloc_blocks: the first of `amount` blocks in a row, none of them in use before, or 0. */
    method AllocBlocks(amount: Word) returns (base: int)
      requires Valid()
      modifies this`usedBlocks, bitmap
      ensures Valid() && base == RunResult(old(Used()), maxBlocks, old(usedBlocks), amount)
      ensures base == 0 ==> Used() == old(Used()) && usedBlocks == old(usedBlocks)
      ensures base != 0 ==> FreeRun(old(Used()), maxBlocks, base, amount) && Used() == old(Used()) + Run(base, amount)
      ensures base != 0 ==> usedBlocks == (old(usedBlocks) + amount) % WRAP
    {
      if (maxBlocks - usedBlocks) % WRAP <= 0 || amount > (maxBlocks - usedBlocks) % WRAP { return 0; }
      base := FirstFreeRun(amount);
      if base == 0 { return 0; }
      for i := 0 to amount
        invariant Used() == old(Used()) + Run(base, i)
        modifies bitmap
      {
        Set(base + i);
      }
      usedBlocks := (usedBlocks + amount) % WRAP;
    }

    /** pmmngr_free_blocks */
    method FreeBlocks(base: int, amount: Word)
      requires Valid() && 0 < base && base + amount <= BITS
      modifies this`usedBlocks, bitmap
      ensures Valid() && Used() == old(Used()) - Run(base, amount)
      ensures usedBlocks == (old(usedBlocks) - amount) % WRAP
    {
      for i := 0 to amount
        invariant Used() == old(Used()) - Run(base, i)
        modifies bitmap
      {
        Unset(base + i);
      }
      usedBlocks := (usedBlocks - amount) % WRAP;
    }
  }

  /** What pmmngr_alloc_block returns, given the used blocks, the block count and the counter. */
  function AllocResult(used: set<int>, max: nat, counter: Word): (b: int)
    ensures b == 0 || (0 < b < max && b !in used)
  {
    var n := max / 32 * 32;
    if (max - counter) % WRAP == 0 || FirstClear(used, n) == n then 0 else FirstClear(used, n)
  }

  /** Some block of the bitmap's whole words is free. */
  ghost predicate SomeFree(used: set<int>, max: nat) {
    exists b :: 0 < b < max / 32 * 32 && b !in used
  }

  /** Block b is free and all below it are in use. */
  ghost predicate IsLowest(used: set<int>, b: int) {
    b !in used && forall c :: 0 <= c < b ==> c in used
  }

  /** A block is handed out exactly when the counter is not at the block count and one is free, and then it is
      the lowest. */
  lemma AllocResultExact(used: set<int>, max: nat, counter: Word)
    requires 0 in used && max < WRAP
    ensures AllocResult(used, max, counter) != 0 <==> counter != max && SomeFree(used, max)
    ensures AllocResult(used, max, counter) != 0 ==> IsLowest(used, AllocResult(used, max, counter))
  {
    var n := max / 32 * 32;
    assert (max - counter) % WRAP == 0 <==> counter == max;
    if SomeFree(used, max) {
      var b :| 0 < b < n && b !in used;
      assert FirstClear(used, n) <= b;
    }
    assert FirstClear(used, n) < n ==> SomeFree(used, max);
  }

  /** What pmmngr_alloc_blocks returns. */
  ghost function RunResult(used: set<int>, max: nat, counter: Word, amount: Word): nat {
    if (max - counter) % WRAP == 0 || amount > (max - counter) % WRAP then 0 else RunScan(used, max, amount, 0, 0)
  }

  /** Block b lies inside the region. */
  predicate BlockInside(b: int, base: int, size: int) {
    base <= b * BLOCK_SIZE && (b + 1) * BLOCK_SIZE <= base + size
  }

  /** A misaligned region frees blocks outside itself: those it frees lie inside exactly when base and size
      are whole blocks, or when there are none because the size is 0 or wraps to 0. */
  lemma RegionInside(base: Word, size: Word)
    ensures var freed := Run(RoundUp(base) / BLOCK_SIZE, RoundUp(size) / BLOCK_SIZE);
            (forall b :: b in freed ==> BlockInside(b, base, size)) <==>
            size == 0 || size > 0xFFFF_F000 || (base % BLOCK_SIZE == 0 && size % BLOCK_SIZE == 0)
  {
    var first, n := RoundUp(base) / BLOCK_SIZE, RoundUp(size) / BLOCK_SIZE;
    RoundedSize(size);
    if n > 0 {
      assert InRun(first, first, n) && InRun(first + n - 1, first, n);
      RegionEnds(base, size);
    }
  }

  /** The region of 4096 bytes at address 1 frees block 1, most of which lies outside it. */
  lemma RegionExample()
    ensures Run(RoundUp(1) / BLOCK_SIZE, RoundUp(4096) / BLOCK_SIZE) == {1} && !BlockInside(1, 1, 4096)
  {
    assert Run(1, 1) == {1} by { assert Run(1, 0) == {}; }
  }

  lemma RoundedSize(size: Word)
    ensures RoundUp(size) == 0 <==> size == 0 || size > 0xFFFF_F000
    ensures RoundUp(size) / BLOCK_SIZE == 0 <==> RoundUp(size) == 0
  {
  }

  /** The first and the last block of the rounded region lie inside exactly when it is aligned. */
  lemma RegionEnds(base: Word, size: Word)
    requires RoundUp(size) > 0
    ensures var first, n := RoundUp(base) / BLOCK_SIZE, RoundUp(size) / BLOCK_SIZE;
            BlockInside(first, base, size) && BlockInside(first + n - 1, base, size)
            <==> base % BLOCK_SIZE == 0 && size % BLOCK_SIZE == 0
  {
  }

  // ----- runs of allocations and frees -----

  /** Blocks in use, the counter, and for each outstanding allocation its first block and its length. */
  datatype State = State(used: set<int>, counter: Word, out: map<int, nat>)

  datatype Call =
    | AllocOne
    | AllocRun(amount: Word)
    | Free(base: int)

  /** Only outstanding allocations are freed. */
  ghost predicate Legal(s: State, c: Call) {
    c.Free? ==> c.base in s.out
  }

  ghost function Step(max: nat, s: State, c: Call): State {
    match c
    case AllocOne =>
      var b := AllocResult(s.used, max, s.counter);
      if b == 0 then s else State(s.used + {b}, (s.counter + 1) % WRAP, s.out[b := 1])
    case AllocRun(amount) =>
      var b := RunResult(s.used, max, s.counter, amount);
      if b == 0 then s else State(s.used + Run(b, amount), (s.counter + amount) % WRAP, s.out[b := amount])
    case Free(base) =>
      if base in s.out then
        State(s.used - Run(base, s.out[base]), (s.counter - s.out[base]) % WRAP, s.out - {base})
      else s
  }

  ghost predicate Apart(a: int, m: nat, b: int, n: nat) {
    Run(a, m) !! Run(b, n)
  }

  ghost predicate Held(used: set<int>, b: int, n: nat) {
    0 < b && 0 < n && Run(b, n) <= used
  }

  /** Outstanding allocations hold blocks marked used, never block 0, and never share a block. */
  ghost predicate Inv(s: State) {
    && 0 in s.used
    && (forall b :: b in s.out ==> Held(s.used, b, s.out[b]))
    && (forall a, b :: a in s.out && b in s.out && a != b ==> Apart(a, s.out[a], b, s.out[b]))
  }

  /** How far the counter is from the number of set bits, in 32-bit arithmetic. */
  ghost function Drift(s: State): int {
    (s.counter - |s.used|) % WRAP
  }

  lemma {:induction false} RunSize(base: int, amount: nat)
    ensures |Run(base, amount)| == amount
  {
    if amount > 0 { RunSize(base, amount - 1); }
  }

  lemma DriftStep(c: Word, n: int, k: int)
    ensures ((c + k) % WRAP - (n + k)) % WRAP == (c - n) % WRAP
  {
  }

  ghost predicate Steady(s: State, t: State) {
    Inv(t) && Drift(t) == Drift(s)
  }

  lemma StepKeeps(max: nat, s: State, c: Call)
    requires Inv(s) && Legal(s, c)
    ensures Steady(s, Step(max, s, c))
  {
    match c
    case AllocOne => AllocOneKeeps(max, s);
    case AllocRun(amount) => AllocRunKeeps(max, s, amount);
    case Free(base) => Remove(s, base);
  }

  lemma AllocOneKeeps(max: nat, s: State)
    requires Inv(s)
    ensures Steady(s, Step(max, s, AllocOne))
  {
    var b := AllocResult(s.used, max, s.counter);
    if b != 0 { AddOne(s, b); }
  }

  lemma AllocRunKeeps(max: nat, s: State, amount: Word)
    requires Inv(s)
    ensures Steady(s, Step(max, s, AllocRun(amount)))
  {
    var b := RunResult(s.used, max, s.counter, amount);
    RunScanSound(s.used, max, amount, 0, 0);
    if b != 0 { Add(s, b, amount); }
  }

  lemma AddOne(s: State, b: int)
    requires Inv(s) && 0 < b && b !in s.used
    ensures var t := State(s.used + {b}, (s.counter + 1) % WRAP, s.out[b := 1]);
            Steady(s, t)
  {
    assert Run(b, 1) == {b} by { assert Run(b, 0) == {}; }
    Add(s, b, 1);
  }

  lemma Add(s: State, base: int, amount: nat)
    requires Inv(s) && 0 < base && 0 < amount && Run(base, amount) !! s.used
    ensures var t := State(s.used + Run(base, amount), (s.counter + amount) % WRAP, s.out[base := amount]);
            Steady(s, t)
  {
    MoreDrift(s.counter, s.used, base, amount);
    AddInv(s, base, amount);
  }

  lemma AddInv(s: State, base: int, amount: nat)
    requires Inv(s) && 0 < base && 0 < amount && Run(base, amount) !! s.used
    ensures Inv(State(s.used + Run(base, amount), 0, s.out[base := amount]))
  {
    var used, out := s.used + Run(base, amount), s.out[base := amount];
    forall b | b in out ensures Held(used, b, out[b]) { assert b != base ==> Held(s.used, b, s.out[b]); }
    forall a, b | a in out && b in out && a != b ensures Apart(a, out[a], b, out[b]) {
      assert a != base ==> Held(s.used, a, s.out[a]);
      assert b != base ==> Held(s.used, b, s.out[b]);
      assert a != base && b != base ==> Apart(a, s.out[a], b, s.out[b]);
    }
  }

  lemma MoreDrift(counter: Word, used: set<int>, base: int, n: nat)
    requires Run(base, n) !! used
    ensures ((counter + n) % WRAP - |used + Run(base, n)|) % WRAP == (counter - |used|) % WRAP
  {
    RunSize(base, n);
    DriftStep(counter, |used|, n);
  }

  lemma Remove(s: State, base: int)
    requires Inv(s) && base in s.out
    ensures var t := State(s.used - Run(base, s.out[base]), (s.counter - s.out[base]) % WRAP, s.out - {base});
            Steady(s, t)
  {
    assert Held(s.used, base, s.out[base]);
    LessDrift(s.counter, s.used, base, s.out[base]);
    RemoveInv(s, base);
  }

  lemma LessDrift(counter: Word, used: set<int>, base: int, n: nat)
    requires Run(base, n) <= used
    ensures ((counter - n) % WRAP - |used - Run(base, n)|) % WRAP == (counter - |used|) % WRAP
  {
    RunSize(base, n);
    SplitSize(used, Run(base, n));
    DriftStep(counter, |used|, -(n as int));
  }

  lemma SplitSize(a: set<int>, b: set<int>)
    requires b <= a
    ensures |a - b| == |a| - |b|
  {
    assert a == (a - b) + b;
  }

  lemma RemoveInv(s: State, base: int)
    requires Inv(s) && base in s.out
    ensures Inv(State(s.used - Run(base, s.out[base]), 0, s.out - {base}))
  {
    forall b | b in s.out - {base} ensures Held(s.used - Run(base, s.out[base]), b, s.out[b]) {
      assert Held(s.used, b, s.out[b]) && Apart(b, s.out[b], base, s.out[base]);
    }
  }

  ghost predicate Reaches(max: nat, s: State, calls: seq<Call>, t: State)
    decreases |calls|
  {
    if calls == [] then s == t else Legal(s, calls[0]) && Reaches(max, Step(max, s, calls[0]), calls[1..], t)
  }

  /** Along any run of single and multi-block allocations and frees, outstanding blocks are disjoint, in
      use and not block 0, and the counter keeps its distance from the number of set bits. */
  lemma {:induction false} RunKeeps(max: nat, s: State, calls: seq<Call>, t: State)
    requires Inv(s) && Reaches(max, s, calls, t)
    ensures Steady(s, t)
    decreases |calls|
  {
    if calls != [] {
      StepKeeps(max, s, calls[0]);
      RunKeeps(max, Step(max, s, calls[0]), calls[1..], t);
    }
  }
}
