/** The records of memory regions: what setup_process and init_thread_stack write down, and what
    process_destroy frees for it. */
module Records {
  import opened Paging

  /** The block process_destroy frees for a record, in 32-bit arithmetic. */
  function FreedFor(record: nat): (f: int)
    ensures 0 <= f < 0x10_0000
  {
    record * 4096 % 0x1_0000_0000 / 4096
  }

  lemma FreedBlock(record: nat)
    ensures FreedFor(record) == record % 0x10_0000
  {
    var q, r := record / 0x10_0000, record % 0x10_0000;
    assert record * 4096 == 0x1_0000_0000 * q + 4096 * r;
    assert record * 4096 % 0x1_0000_0000 == 4096 * r;
  }

  /** A thread's record, a block number, frees that block. A process's record, an address, frees another one:
      the block it stands for only if that is block 0, which is never handed out, and block 0 itself whenever
      the number is a multiple of 256. */
  lemma RecordFrees(f: nat)
    requires f < TOP
    ensures FreedFor(f) == f
    ensures FreedFor(PAGE_SIZE * f) == f <==> f == 0
    ensures FreedFor(PAGE_SIZE * f) == 0 <==> f % 256 == 0
  {
    FreedBlock(f);
    FreedBlock(PAGE_SIZE * f);
    Shifted(f / 256, f % 256);
  }

  lemma Shifted(q: nat, r: nat)
    requires r < 256
    ensures PAGE_SIZE * (256 * q + r) % 0x10_0000 == 4096 * r
    ensures 4096 * r == 256 * q + r <==> q == 0 && r == 0
  {
    ShiftedPage(q, r);
    if 4096 * r == 256 * q + r {
      assert r == 256 * (16 * r - q);
      assert 16 * r == q;
    }
  }

  lemma ShiftedPage(q: nat, r: nat)
    requires r < 256
    ensures PAGE_SIZE * (256 * q + r) % 0x10_0000 == 4096 * r
  {
    assert PAGE_SIZE * (256 * q + r) == 0x10_0000 * q + 4096 * r;
  }

  /** The blocks freed for a list of records, in order. */
  function FreedAll(records: seq<nat>): (r: seq<int>)
    ensures |r| == |records| && forall k :: 0 <= k < |r| ==> r[k] == FreedFor(records[k])
  {
    seq(|records|, k requires 0 <= k < |records| => FreedFor(records[k]))
  }

  /** The same as a set. */
  ghost function Blocks(freed: seq<int>): set<int> {
    set k | 0 <= k < |freed| :: freed[k]
  }

  lemma BlocksOfBoth(a: seq<nat>, b: seq<nat>)
    ensures Blocks(FreedAll(a + b)) == Blocks(FreedAll(a)) + Blocks(FreedAll(b))
  {
    var x, y, z := FreedAll(a), FreedAll(b), FreedAll(a + b);
    assert z == x + y;
    forall k | 0 <= k < |x| ensures x[k] in Blocks(z) { assert z[k] == x[k]; }
    forall k | 0 <= k < |y| ensures y[k] in Blocks(z) { assert z[|x| + k] == y[k]; }
  }

  /** The records of several lists, in order. */
  function Joined(lists: seq<seq<nat>>): seq<nat> {
    if lists == [] then [] else Joined(lists[..|lists| - 1]) + lists[|lists| - 1]
  }

  /** How many there are. */
  ghost function Total(lists: seq<seq<nat>>): nat {
    if lists == [] then 0 else Total(lists[..|lists| - 1]) + |lists[|lists| - 1]|
  }

  /** The blocks the records of several lists stand for, in 20 bits. */
  ghost function BlocksIn(lists: seq<seq<nat>>): set<int> {
    set i, k | 0 <= i < |lists| && 0 <= k < |lists[i]| :: lists[i][k] % 0x10_0000
  }

  /** Joining loses no record and adds none. */
  lemma {:induction false} JoinedBlocks(lists: seq<seq<nat>>)
    ensures Blocks(FreedAll(Joined(lists))) == BlocksIn(lists) && |Joined(lists)| == Total(lists)
  {
    if lists != [] {
      var n := |lists| - 1;
      JoinedBlocks(lists[..n]);
      BlocksOfBoth(Joined(lists[..n]), lists[n]);
      LastBlocks(lists);
    }
  }

  lemma LastBlocks(lists: seq<seq<nat>>)
    requires lists != []
    ensures var n := |lists| - 1;
            BlocksIn(lists) == BlocksIn(lists[..n]) + Blocks(FreedAll(lists[n]))
  {
    var n := |lists| - 1;
    var x := FreedAll(lists[n]);
    forall k | 0 <= k < |x| ensures x[k] == lists[n][k] % 0x10_0000 { FreedBlock(lists[n][k]); }
    forall k | 0 <= k < |x| ensures x[k] in BlocksIn(lists) { assert x[k] == lists[n][k] % 0x10_0000; }
    forall i, k | 0 <= i < n && 0 <= k < |lists[i]| ensures lists[i][k] % 0x10_0000 in BlocksIn(lists) {}
    forall f | f in BlocksIn(lists) ensures f in BlocksIn(lists[..n]) + Blocks(x) {
      var i, k :| 0 <= i < |lists| && 0 <= k < |lists[i]| && f == lists[i][k] % 0x10_0000;
      assert if i == n then x[k] == f else lists[..n][i][k] % 0x10_0000 in BlocksIn(lists[..n]);
    }
  }

  lemma JoinedStep(lists: seq<seq<nat>>, j: nat)
    requires j < |lists|
    ensures Joined(lists[..j + 1]) == Joined(lists[..j]) + lists[j]
  {
    assert lists[..j + 1][..j] == lists[..j];
  }
}
