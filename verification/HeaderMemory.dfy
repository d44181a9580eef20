/** Memory as the allocators see it, and what it means for a block list to be stored in it. */
module HeaderMemory {
  import opened Blocks

  const WORD: int := 4
  const ADDRESS_SPACE: int := 0x1_0000_0000
  const PAGE_SIZE: int := 4096

  type Word = x: int | 0 <= x < ADDRESS_SPACE

  /** Byte-addressed memory of 32-bit words: `m[a]` is the word stored at byte address a. Storing a
      word destroys every other word it overlaps, so a torn word is absent and cannot be read. */
  type Memory = map<int, Word>

  function Put(m: Memory, a: int, v: Word): Memory
  {
    (map x | x in m && (x + WORD <= a || a + WORD <= x) :: m[x])[a := v]
  }

  // Field offsets of the packed header structure.
  const STATUS: int := 0
  const PREV: int := 4
  const NEXT: int := 8

  const FREE: Word := 0
  const USED: Word := 1

  ghost predicate HeaderAt(m: Memory, a: int, used: bool, prev: int, next: int) {
    && a + STATUS in m && m[a + STATUS] == (if used then USED else FREE)
    && a + PREV in m && m[a + PREV] == prev
    && a + NEXT in m && m[a + NEXT] == next
  }

  function PrevOf(bs: seq<Block>, i: nat): int
    requires i < |bs|
  {
    if i == 0 then 0 else bs[i - 1].addr
  }

  function NextOf(bs: seq<Block>, i: nat, last: int): int
    requires i < |bs|
  {
    if i + 1 < |bs| then bs[i + 1].addr else last
  }

  /** Header i is in memory, with status, back link and forward link as the list says; `last` is the
      forward link of the final header. */
  ghost predicate Stored(m: Memory, bs: seq<Block>, last: int, i: nat)
    requires i < |bs|
  {
    HeaderAt(m, bs[i].addr, bs[i].used, PrevOf(bs, i), NextOf(bs, i, last))
  }

  ghost predicate Linked(m: Memory, bs: seq<Block>, last: int) {
    forall i: nat :: i < |bs| ==> Stored(m, bs, last, i)
  }

  /** As Linked, for all headers but those numbered lo..hi. */
  ghost predicate LinkedBut(m: Memory, bs: seq<Block>, last: int, lo: int, hi: int) {
    forall i: nat :: i < |bs| && !(lo <= i <= hi) ==> Stored(m, bs, last, i)
  }

  // ----- one store, one header -----

  lemma SetField(m: Memory, b: int, used: bool, prev: int, next: int, v: Word)
    requires HeaderAt(m, b, used, prev, next)
    ensures v == USED ==> HeaderAt(Put(m, b + STATUS, v), b, true, prev, next)
    ensures v == FREE ==> HeaderAt(Put(m, b + STATUS, v), b, false, prev, next)
    ensures HeaderAt(Put(m, b + PREV, v), b, used, v, next)
    ensures HeaderAt(Put(m, b + NEXT, v), b, used, prev, v)
  {
  }

  /** The two memories hold the same words outside [lo, hi). */
  ghost predicate SameOutside(m: Memory, m': Memory, lo: int, hi: int) {
    forall x :: x in m && (x + WORD <= lo || hi <= x) ==> x in m' && m'[x] == m[x]
  }

  // ----- whole lists -----

  /** Headers outside the touched range survive. */
  lemma KeepOthers(m: Memory, m': Memory, bs: seq<Block>, start: int, end: int, last: int, i: nat, j: nat)
    requires Tiled(bs, start, end, 0) && Linked(m, bs, last) && i <= j < |bs|
    requires SameOutside(m, m', bs[i].addr, bs[j].addr + HEADER)
    ensures LinkedBut(m', bs, last, i, j)
  {
    forall k: nat | k < |bs| && !(i <= k <= j) ensures Stored(m', bs, last, k) {
      assert Stored(m, bs, last, k);
      assert if k < i then Apart(bs, k, i, 0) else Apart(bs, j, k, 0);
    }
  }

  lemma MarkLinks(m: Memory, bs: seq<Block>, start: int, end: int, last: int, i: nat, used: bool)
    requires Tiled(bs, start, end, 0) && Linked(m, bs, last) && i < |bs|
    ensures Linked(Put(m, bs[i].addr + STATUS, if used then USED else FREE), Mark(bs, i, used), last)
  {
    var r, v := Mark(bs, i, used), if used then USED else FREE;
    var m' := Put(m, bs[i].addr + STATUS, v);
    KeepOthers(m, m', bs, start, end, last, i, i);
    forall k: nat | k < |bs| ensures Stored(m', r, last, k) {
      if k == i { assert Stored(m, bs, last, i); } else { assert Stored(m', bs, last, k); }
    }
  }

  lemma NewHeaderEffect(m: Memory, a: int, v: Word, prev: Word, next: Word)
    requires v == FREE || v == USED
    ensures var r := Put(Put(Put(m, a + STATUS, v), a + PREV, prev), a + NEXT, next);
            HeaderAt(r, a, v == USED, prev, next) && SameOutside(m, r, a, a + HEADER)
  {
  }

  /** Storing a back link that is already there changes nothing. */
  lemma SameLinks(m: Memory, bs: seq<Block>, start: int, end: int, last: int, i: nat, b: Word)
    requires Tiled(bs, start, end, 0) && Linked(m, bs, last) && i + 1 < |bs| && b == bs[i].addr
    ensures Linked(Put(m, bs[i + 1].addr + PREV, b), bs, last)
  {
    var m' := Put(m, bs[i + 1].addr + PREV, b);
    KeepOthers(m, m', bs, start, end, last, i + 1, i + 1);
    forall k: nat | k < |bs| ensures Stored(m', bs, last, k) {
      if k == i + 1 { assert Stored(m, bs, last, k); }
    }
  }

  lemma InsertLinks(bs: seq<Block>, i: nat, b: Block, last: int, k: nat)
    requires i + 1 < |bs| && k <= |bs|
    ensures var r := InsertAt(bs, i + 1, b);
            && PrevOf(r, k) == (if k <= i then PrevOf(bs, k) else if k == i + 2 then b.addr else r[k - 1].addr)
            && NextOf(r, k, last) == (if k == i then b.addr else if k < i then NextOf(bs, k, last)
                                      else if k == i + 1 then bs[k].addr else NextOf(bs, k - 1, last))
            && (k == i + 1 ==> PrevOf(r, k) == bs[i].addr)
            && (k > i + 2 ==> PrevOf(r, k) == PrevOf(bs, k - 1))
  {
  }

  /** Once the three headers that meet at the cut are right, the whole list is. */
  lemma SplitList(m: Memory, bs: seq<Block>, last: int, i: nat, cut: Word)
    requires i + 1 < |bs| && LinkedBut(m, bs, last, i, i + 1)
    requires HeaderAt(m, bs[i].addr, bs[i].used, PrevOf(bs, i), cut)
    requires HeaderAt(m, cut, false, bs[i].addr, bs[i + 1].addr)
    requires HeaderAt(m, bs[i + 1].addr, bs[i + 1].used, cut, NextOf(bs, i + 1, last))
    ensures Linked(m, InsertAt(bs, i + 1, Block(cut, false)), last)
  {
    var r := InsertAt(bs, i + 1, Block(cut, false));
    forall k: nat | k < |r| ensures Stored(m, r, last, k) {
      InsertLinks(bs, i, Block(cut, false), last, k);
      if k < i { assert Stored(m, bs, last, k); }
      if k > i + 2 { assert Stored(m, bs, last, k - 1); }
    }
  }

  lemma SplitEffect(m: Memory, m1: Memory, m2: Memory, b: int, cut: Word, n: int, used: bool, prev: int,
                    used': bool, next': int)
    requires b + HEADER <= cut && cut + HEADER <= n
    requires HeaderAt(m, b, used, prev, n) && HeaderAt(m, n, used', b, next')
    requires m1 == Put(m, b + NEXT, cut)
    requires HeaderAt(m2, cut, false, b, n) && SameOutside(m1, m2, cut, cut + HEADER)
    ensures var m3 := Put(m2, n + PREV, cut);
            && HeaderAt(m3, b, used, prev, cut) && HeaderAt(m3, cut, false, b, n) && HeaderAt(m3, n, used', cut, next')
            && SameOutside(m, m3, b, n + HEADER)
  {
    SetField(m, b, used, prev, n, cut);
    assert HeaderAt(m2, b, used, prev, cut) && HeaderAt(m2, n, used', b, next');
    SetField(m2, n, used', b, next', cut);
  }

  /** What the stores of a split do to the three headers that meet at the cut. */
  lemma SplitHeaders(m: Memory, m1: Memory, m2: Memory, bs: seq<Block>, last: int, i: nat, cut: Word)
    requires Linked(m, bs, last) && i + 1 < |bs|
    requires bs[i].addr + HEADER <= cut && cut + HEADER <= bs[i + 1].addr
    requires m1 == Put(m, bs[i].addr + NEXT, cut)
    requires HeaderAt(m2, cut, false, bs[i].addr, bs[i + 1].addr) && SameOutside(m1, m2, cut, cut + HEADER)
    ensures var m3 := Put(m2, bs[i + 1].addr + PREV, cut);
            && HeaderAt(m3, bs[i].addr, bs[i].used, PrevOf(bs, i), cut)
            && HeaderAt(m3, cut, false, bs[i].addr, bs[i + 1].addr)
            && HeaderAt(m3, bs[i + 1].addr, bs[i + 1].used, cut, NextOf(bs, i + 1, last))
            && SameOutside(m, m3, bs[i].addr, bs[i + 1].addr + HEADER)
  {
    assert Stored(m, bs, last, i) && Stored(m, bs, last, i + 1);
    SplitEffect(m, m1, m2, bs[i].addr, cut, bs[i + 1].addr, bs[i].used, PrevOf(bs, i), bs[i + 1].used,
                NextOf(bs, i + 1, last));
  }

  /** Cutting block i in two: m1 has block i's forward link redirected, m2 also holds the new header,
      and redirecting the next block's back link completes the new list. */
  lemma SplitLinks(m: Memory, m1: Memory, m2: Memory, bs: seq<Block>, start: int, end: int, last: int, i: nat,
                   cut: Word)
    requires Tiled(bs, start, end, 0) && Linked(m, bs, last) && i + 1 < |bs|
    requires bs[i].addr + HEADER <= cut && cut + HEADER <= bs[i + 1].addr
    requires m1 == Put(m, bs[i].addr + NEXT, cut)
    requires HeaderAt(m2, cut, false, bs[i].addr, bs[i + 1].addr) && SameOutside(m1, m2, cut, cut + HEADER)
    ensures Linked(Put(m2, bs[i + 1].addr + PREV, cut), InsertAt(bs, i + 1, Block(cut, false)), last)
  {
    var m3 := Put(m2, bs[i + 1].addr + PREV, cut);
    SplitHeaders(m, m1, m2, bs, last, i, cut);
    KeepOthers(m, m3, bs, start, end, last, i, i + 1);
    SplitList(m3, bs, last, i, cut);
  }

  /** The two stores that take the header between `b` and `n` off the chain. */
  function JoinStores(m: Memory, b: Word, n: Word): Memory {
    Put(Put(m, b + NEXT, n), n + PREV, b)
  }

  lemma JoinStoresEffect(m: Memory, b: Word, n: Word, used: bool, prev: int, next: int, used': bool, prev': int,
                         next': int)
    requires b + HEADER <= n
    requires HeaderAt(m, b, used, prev, next) && HeaderAt(m, n, used', prev', next')
    ensures var r := JoinStores(m, b, n);
            && HeaderAt(r, b, used, prev, n) && HeaderAt(r, n, used', b, next')
            && SameOutside(m, r, b, n + HEADER)
  {
  }

  lemma RemoveLinks(bs: seq<Block>, i: nat, last: int, k: nat)
    requires 0 < i && i + 1 < |bs| && k + 1 < |bs|
    ensures var r := RemoveAt(bs, i);
            && PrevOf(r, k) == (if k < i then PrevOf(bs, k) else if k == i then bs[i - 1].addr else PrevOf(bs, k + 1))
            && NextOf(r, k, last) == (if k < i - 1 then NextOf(bs, k, last) else if k == i - 1 then bs[i + 1].addr
                                      else NextOf(bs, k + 1, last))
  {
  }

  lemma JoinList(m: Memory, bs: seq<Block>, last: int, i: nat)
    requires 0 < i && i + 1 < |bs| && LinkedBut(m, bs, last, i - 1, i + 1)
    requires HeaderAt(m, bs[i - 1].addr, bs[i - 1].used, PrevOf(bs, i - 1), bs[i + 1].addr)
    requires HeaderAt(m, bs[i + 1].addr, bs[i + 1].used, bs[i - 1].addr, NextOf(bs, i + 1, last))
    ensures Linked(m, RemoveAt(bs, i), last)
  {
    var r := RemoveAt(bs, i);
    forall k: nat | k < |r| ensures Stored(m, r, last, k) {
      RemoveLinks(bs, i, last, k);
      if k < i - 1 { assert Stored(m, bs, last, k); }
      if k > i { assert Stored(m, bs, last, k + 1); }
    }
  }

  /** Dropping block i from the list takes redirecting the links of its two neighbours. */
  lemma JoinLinks(m: Memory, bs: seq<Block>, start: int, end: int, last: int, i: nat)
    requires Tiled(bs, start, end, 0) && Linked(m, bs, last) && 0 < i && i + 1 < |bs|
    requires 0 <= start && end <= ADDRESS_SPACE
    ensures 0 <= bs[i - 1].addr < bs[i + 1].addr < ADDRESS_SPACE
    ensures Linked(JoinStores(m, bs[i - 1].addr, bs[i + 1].addr), RemoveAt(bs, i), last)
  {
    var b, n := bs[i - 1], bs[i + 1];
    assert Stored(m, bs, last, i - 1) && Stored(m, bs, last, i + 1);
    InHeap(bs, start, end, 0, i - 1);
    InHeap(bs, start, end, 0, i);
    JoinStoresEffect(m, b.addr, n.addr, b.used, PrevOf(bs, i - 1), NextOf(bs, i - 1, last),
                     n.used, PrevOf(bs, i + 1), NextOf(bs, i + 1, last));
    var m' := JoinStores(m, b.addr, n.addr);
    KeepOthers(m, m', bs, start, end, last, i - 1, i + 1);
    JoinList(m', bs, last, i);
  }

  /** A store inside the payload of block i leaves the stored list alone. */
  lemma PayloadStoreLinks(m: Memory, bs: seq<Block>, start: int, end: int, last: int, i: nat, a: int, v: Word)
    requires Tiled(bs, start, end, 0) && Linked(m, bs, last) && i < |bs|
    requires bs[i].addr + HEADER <= a && a + WORD <= EndOf(bs, end, i)
    ensures Linked(Put(m, a, v), bs, last)
  {
    forall k: nat | k < |bs| ensures Stored(Put(m, a, v), bs, last, k) {
      assert Stored(m, bs, last, k);
      assert k < i ==> Apart(bs, k, i, 0);
      assert i + 1 < k ==> Apart(bs, i + 1, k, 0);
    }
  }

  /** Storing a header past the final one and pointing the final one at it appends a block. */
  lemma AppendLinks(m: Memory, m1: Memory, m2: Memory, bs: seq<Block>, start: int, end: int, last: int, cut: Word,
                    used: bool)
    requires Tiled(bs, start, end, 0) && Linked(m, bs, last) && bs[|bs| - 1].addr + HEADER <= cut
    requires m1 == Put(m, bs[|bs| - 1].addr + NEXT, cut)
    requires HeaderAt(m2, cut, used, bs[|bs| - 1].addr, last) && SameOutside(m1, m2, cut, cut + HEADER)
    ensures Linked(m2, InsertAt(bs, |bs|, Block(cut, used)), last)
  {
    var i, r := |bs| - 1, InsertAt(bs, |bs|, Block(cut, used));
    KeepOthers(m, m1, bs, start, end, last, i, i);
    assert Stored(m, bs, last, i);
    SetField(m, bs[i].addr, bs[i].used, PrevOf(bs, i), last, cut);
    forall k: nat | k < |r| ensures Stored(m2, r, last, k) {
      if k < i {
        assert Stored(m1, bs, last, k) && Apart(bs, k, i, 0);
        StillStored(m1, m2, bs, last, k, cut);
      }
    }
  }

  /** A header that ends before the touched range survives. */
  lemma StillStored(m: Memory, m': Memory, bs: seq<Block>, last: int, k: nat, lo: int)
    requires k < |bs| && Stored(m, bs, last, k) && SameOutside(m, m', lo, lo + HEADER) && bs[k].addr + HEADER <= lo
    ensures Stored(m', bs, last, k)
  {
  }

  /** Ending the chain one header earlier drops the final block. */
  lemma DropLinks(m: Memory, bs: seq<Block>, start: int, end: int, last: Word)
    requires Tiled(bs, start, end, 0) && Linked(m, bs, last) && 1 < |bs|
    ensures Linked(Put(m, bs[|bs| - 2].addr + NEXT, last), RemoveAt(bs, |bs| - 1), last)
  {
    var i, r := |bs| - 2, RemoveAt(bs, |bs| - 1);
    var m' := Put(m, bs[i].addr + NEXT, last);
    KeepOthers(m, m', bs, start, end, last, i, i);
    assert Stored(m, bs, last, i);
    SetField(m, bs[i].addr, bs[i].used, PrevOf(bs, i), bs[i + 1].addr, last);
    forall k: nat | k < |r| ensures Stored(m', r, last, k) {
      if k < i { assert Stored(m', bs, last, k); }
    }
  }

  /** The memory that holds the headers, with the stores both allocators make to it. The block list is
      the one in memory before the call; `last` is the forward link of its final header. */
  class HeaderStore {
    var mem: Memory

    constructor (mem: Memory)
      ensures this.mem == mem
    {
      this.mem := mem;
    }

    /** Writes the three fields of a header. */
    method NewHeader(a: Word, status: Word, prev: Word, next: Word)
      requires status == FREE || status == USED
      modifies this
      ensures HeaderAt(mem, a, status == USED, prev, next) && SameOutside(old(mem), mem, a, a + HEADER)
    {
      NewHeaderEffect(mem, a, status, prev, next);
      mem := Put(mem, a + STATUS, status);
      mem := Put(mem, a + PREV, prev);
      mem := Put(mem, a + NEXT, next);
    }

    /** Reads the forward link of header i. */
    method Next(b: Word, ghost bs: seq<Block>, ghost last: int, ghost i: nat) returns (n: Word)
      requires Linked(mem, bs, last) && i < |bs| && b == bs[i].addr
      ensures n == NextOf(bs, i, last)
    {
      assert Stored(mem, bs, last, i);
      n := mem[b + NEXT];
    }

    /** Reads the status word of header i. */
    method IsFree(b: Word, ghost bs: seq<Block>, ghost last: int, ghost i: nat) returns (free: bool)
      requires Linked(mem, bs, last) && i < |bs| && b == bs[i].addr
      ensures free == !bs[i].used
    {
      assert Stored(mem, bs, last, i);
      free := mem[b + STATUS] == FREE;
    }

    /** Writes a forward link. */
    method SetNext(b: Word, n: Word)
      modifies this
      ensures mem == Put(old(mem), b + NEXT, n)
    {
      mem := Put(mem, b + NEXT, n);
    }

    /** Writes the status word of header i. */
    method SetStatus(b: Word, v: Word, ghost bs: seq<Block>, ghost start: int, ghost end: int, ghost last: int,
                     ghost i: nat)
      requires Tiled(bs, start, end, 0) && Linked(mem, bs, last)
      requires i < |bs| && b == bs[i].addr && (v == FREE || v == USED)
      modifies this
      ensures Tiled(Mark(bs, i, v == USED), start, end, 0) && Linked(mem, Mark(bs, i, v == USED), last)
    {
      MarkLinks(mem, bs, start, end, last, i, v == USED);
      MarkTiled(bs, start, end, 0, i, v == USED);
      mem := Put(mem, b + STATUS, v);
    }

    /** Points the header after block i back at block i. */
    method WriteBack(b: Word, n: Word, ghost bs: seq<Block>, ghost start: int, ghost end: int, ghost last: int,
                     ghost i: nat)
      requires Tiled(bs, start, end, 0) && Linked(mem, bs, last)
      requires i + 1 < |bs| && b == bs[i].addr && n == bs[i + 1].addr
      modifies this
      ensures Linked(mem, bs, last)
    {
      SameLinks(mem, bs, start, end, last, i, b);
      mem := Put(mem, n + PREV, b);
    }

    /** Stores the header of a new free block at `cut` and links it in between `b` and `n`. */
    method Split(b: Word, cut: Word, n: Word, ghost bs: seq<Block>, ghost start: int, ghost end: int,
                 ghost last: int, ghost i: nat)
      requires Tiled(bs, start, end, 0) && Linked(mem, bs, last)
      requires i + 1 < |bs| && b == bs[i].addr && n == bs[i + 1].addr
      requires b + HEADER <= cut && cut + HEADER <= n
      modifies this
      ensures Linked(mem, InsertAt(bs, i + 1, Block(cut, false)), last)
    {
      ghost var m := mem;
      mem := Put(mem, b + NEXT, cut);
      ghost var m1 := mem;
      NewHeader(cut, FREE, b, n);
      SplitLinks(m, m1, mem, bs, start, end, last, i, cut);
      mem := Put(mem, n + PREV, cut);
    }

    /** Gives the used block i the room a request needs and cuts the rest of it, up to the next header
        `n`, off as a new free block when header and minimum payload fit. */
    method Fill(b: Word, n: Word, bytes: Word, ghost bs: seq<Block>, ghost start: int, ghost end: int,
                ghost last: int, ghost i: nat)
      requires Tiled(bs, start, end, 0) && Linked(mem, bs, last)
      requires i + 1 < |bs| && b == bs[i].addr && n == bs[i + 1].addr && b + HEADER + bytes <= n
      modifies this
      ensures Linked(mem, Cut(bs, end, i, bytes), last)
    {
      if n == b + HEADER + bytes {
        WriteBack(b, n, bs, start, end, last, i);
      } else {
        var cut: Word := b + HEADER + bytes;
        if n - cut < HEADER + MIN_PAYLOAD {
          WriteBack(b, n, bs, start, end, last, i);
        } else {
          assert Cut(bs, end, i, bytes) == InsertAt(bs, i + 1, Block(cut, false));
          Split(b, cut, n, bs, start, end, last, i);
        }
      }
    }

    /** Makes `b` and `n` neighbours, taking the header between them off the chain. */
    method Join(b: Word, n: Word, ghost bs: seq<Block>, ghost start: int, ghost end: int, ghost last: int, ghost i: nat)
      requires Tiled(bs, start, end, 0) && Linked(mem, bs, last) && 0 <= start && end <= ADDRESS_SPACE
      requires 0 < i && i + 1 < |bs| && b == bs[i - 1].addr && n == bs[i + 1].addr
      modifies this
      ensures Tiled(RemoveAt(bs, i), start, end, 0) && Linked(mem, RemoveAt(bs, i), last)
    {
      JoinLinks(mem, bs, start, end, last, i);
      RemoveTiled(bs, start, end, 0, i);
      mem := Put(mem, b + NEXT, n);
      mem := Put(mem, n + PREV, b);
    }

    /** Ends the chain at `b`, the header before the final one. */
    method DropLast(b: Word, ghost bs: seq<Block>, ghost start: int, ghost end: int, ghost last: Word)
      requires Tiled(bs, start, end, 0) && Linked(mem, bs, last) && 1 < |bs| && b == bs[|bs| - 2].addr && last == 0
      modifies this
      ensures Tiled(RemoveAt(bs, |bs| - 1), start, end, 0) && Linked(mem, RemoveAt(bs, |bs| - 1), last)
    {
      DropLinks(mem, bs, start, end, last);
      RemoveTiled(bs, start, end, 0, |bs| - 1);
      mem := Put(mem, b + NEXT, 0);
    }

    /** A client's own store inside the payload of block i. */
    method PayloadStore(a: Word, v: Word, ghost bs: seq<Block>, ghost start: int, ghost end: int, ghost last: int,
                        ghost i: nat)
      requires Tiled(bs, start, end, 0) && Linked(mem, bs, last) && i < |bs|
      requires bs[i].addr + HEADER <= a && a + WORD <= EndOf(bs, end, i)
      modifies this
      ensures Linked(mem, bs, last) && mem == Put(old(mem), a, v)
    {
      PayloadStoreLinks(mem, bs, start, end, last, i, a, v);
      mem := Put(mem, a, v);
    }
  }
}
