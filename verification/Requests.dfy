/** What either allocator owes a request, said of the blocks alone. */
module Requests {
  import opened Blocks

  /** Block i is free and has room for `need` bytes behind its header. */
  ghost predicate Room(bs: seq<Block>, end: int, i: int, need: int) {
    0 <= i < |bs| && !bs[i].used && bs[i].addr + HEADER + need <= EndOf(bs, end, i)
  }

  /** Block i is the lowest such block. */
  ghost predicate LowestRoom(bs: seq<Block>, end: int, i: int, need: int) {
    Room(bs, end, i, need) && forall j :: Room(bs, end, j, need) ==> bs[i].addr <= bs[j].addr
  }

  /** Block i has become a used one that begins where it did and holds at least `need` bytes, fewer than 16 more. */
  ghost predicate HandedOut(bs: seq<Block>, bs': seq<Block>, end: int, i: int, need: int) {
    0 <= i < |bs| && Holding(bs', end, i, bs[i].addr, need)
  }

  ghost predicate Holding(bs: seq<Block>, end: int, i: int, addr: int, need: int) {
    && 0 <= i < |bs| && bs[i] == Block(addr, true)
    && addr + HEADER + need <= EndOf(bs, end, i) < addr + HEADER + need + 16
  }

  /** The first fit is the lowest block with room. */
  lemma FirstIsLowest(bs: seq<Block>, start: int, end: int, gap: nat, j: int, need: int)
    requires Tiled(bs, start, end, gap) && LowestRoom(bs, end, j, need) && FirstFit(bs, end, need) < |bs|
    ensures j == FirstFit(bs, end, need)
  {
    var i := FirstFit(bs, end, need);
    assert Fits(bs, end, j, need) && Room(bs, end, i, need);
    assert i < j ==> Apart(bs, i, j, gap);
  }
}
