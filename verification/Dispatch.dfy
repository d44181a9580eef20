/** How a new thread starts: what its first time on the CPU loads. */
module Dispatch {
  import opened Scheduling

  /** The context a user thread starts with: ring 3 selectors, and an address that makes its first instruction
      fault, so that the program or the stack is set up. */
  predicate StartsUser(r: Registers) {
    && r.eip == 0xDEAD_BEEF && r.cs == 0x1B && r.eflags == 0x202
    && r.ds == 0x23 && r.es == 0x23 && r.fs == 0x23 && r.gs == 0x23 && r.ss == 0x23
  }

  /** Thread j of the process with this id is there, and r is its saved context. */
  ghost predicate Waits(s: Sched, id: int, j: nat, r: Registers) {
    var i := FindId(s.queue, id);
    i < |s.queue| && j < |s.queue[i].saved| && s.queue[i].saved[j] == r
  }

  /** That thread is on the CPU. */
  ghost predicate Runs(s: Sched, id: int, j: nat) {
    InQueue(s.queue, s.pos) && s.queue[s.pos.p].id == id && s.pos.t == j
  }

  /** The call ends the process. */
  ghost predicate Ends(s: Sched, c: Call, id: int) {
    c.OnExit? && InQueue(s.queue, s.pos) && s.queue[s.pos.p].id == id
  }

  /** Before the end of the run the thread has not been on the CPU and its process has not exited. */
  ghost predicate Undispatched(s: Sched, calls: seq<Call>, id: int, j: nat)
    decreases |calls|
  {
    || calls == []
    || (!Runs(s, id, j) && !Ends(s, calls[0], id) && Undispatched(Apply(s, calls[0]), calls[1..], id, j))
  }

  /** An id belongs to one process. */
  lemma UniqueId(s: Sched, i: nat)
    requires Inv(s) && i < |s.queue|
    ensures FindId(s.queue, s.queue[i].id) == i
  {
    var k := FindId(s.queue, s.queue[i].id);
    assert k < i ==> Ordered(s, k, i);
  }

  /** A call that does not dispatch the thread or end its process leaves its context alone. */
  lemma StepWaits(s: Sched, c: Call, id: int, j: nat, r: Registers)
    requires Inv(s) && Legal(s, c) && Waits(s, id, j, r) && !Runs(s, id, j) && !Ends(s, c, id)
    ensures Waits(Apply(s, c), id, j, r)
  {
    var t, i := Apply(s, c), FindId(s.queue, id);
    ApplyKeeps(s, c);
    UniqueId(t, if c.OnExit? && s.pos.p < i then i - 1 else i);
  }

  lemma {:induction false} RunWaits(s: Sched, calls: seq<Call>, t: Sched, id: int, j: nat, r: Registers)
    requires Inv(s) && Reaches(s, calls, t) && Waits(s, id, j, r) && Undispatched(s, calls, id, j)
    ensures Inv(t) && Waits(t, id, j, r)
    decreases |calls|
  {
    if calls != [] {
      ApplyKeeps(s, calls[0]);
      StepWaits(s, calls[0], id, j, r);
      RunWaits(Apply(s, calls[0]), calls[1..], t, id, j, r);
    }
  }

  lemma LoadsWaiting(s: Sched, id: int, j: nat, r: Registers)
    requires Inv(s) && Waits(s, id, j, r) && Runs(s, id, j)
    ensures Loaded(s) == r
  {
    UniqueId(s, s.pos.p);
  }

  /** Whatever happens after a process has been added, its thread is there until it is first dispatched or the
      process exits, and its first dispatch loads a user start context. */
  lemma ProcessStarts(s: Sched, pd: int, garbage: Registers, calls: seq<Call>, t: Sched)
    requires Inv(s) && Reaches(Apply(s, OnAddProcess(pd, garbage)), calls, t)
    requires Undispatched(Apply(s, OnAddProcess(pd, garbage)), calls, s.counter + 1, 0)
    ensures FindId(t.queue, s.counter + 1) < |t.queue|
    ensures Runs(t, s.counter + 1, 0) ==> StartsUser(Loaded(t))
  {
    var n := Apply(s, OnAddProcess(pd, garbage));
    var r := n.queue[|s.queue|].saved[0];
    ApplyKeeps(s, OnAddProcess(pd, garbage));
    UniqueId(n, |s.queue|);
    RunWaits(n, calls, t, s.counter + 1, 0, r);
    if Runs(t, s.counter + 1, 0) { LoadsWaiting(t, s.counter + 1, 0, r); }
  }

  /** The same of a thread added to the process with the given id; it is that process's last one. */
  lemma ThreadStarts(s: Sched, id: int, garbage: Registers, j: nat, calls: seq<Call>, t: Sched)
    requires Inv(s) && FindId(s.queue, id) < |s.queue| && j == |s.queue[FindId(s.queue, id)].saved|
    requires Reaches(Apply(s, OnAddThread(id, garbage)), calls, t)
    requires Undispatched(Apply(s, OnAddThread(id, garbage)), calls, id, j)
    ensures var i := FindId(t.queue, id); i < |t.queue| && j < |t.queue[i].saved|
    ensures Runs(t, id, j) ==> StartsUser(Loaded(t))
  {
    var n, i := Apply(s, OnAddThread(id, garbage)), FindId(s.queue, id);
    var r := n.queue[i].saved[j];
    ApplyKeeps(s, OnAddThread(id, garbage));
    UniqueId(n, i);
    RunWaits(n, calls, t, id, j, r);
    if Runs(t, id, j) { LoadsWaiting(t, id, j, r); }
  }

  lemma TickLeaves(m: Sched, regs: Registers, x: Position)
    requires Inv(m) && 0 < |m.queue| && InQueue(m.queue, x) && m.pos != x
    ensures var t := Tick(m, regs); InQueue(t.queue, x) && t.queue[x.p].saved[x.t] == m.queue[x.p].saved[x.t]
  {
  }

  /** Before each of the first n ticks another thread than x is on the CPU. */
  ghost predicate Away(s: Sched, regs: seq<Registers>, x: Position, n: nat)
    requires Inv(s) && 0 < |s.queue| && n <= |regs|
  {
    forall l :: 0 <= l < n ==> Ticks(s, regs[..l]).pos != x
  }

  /** Those ticks leave the context of x alone. */
  lemma {:induction false} TicksLeave(s: Sched, regs: seq<Registers>, x: Position, n: nat)
    requires Inv(s) && s.pos.At? && InQueue(s.queue, x) && n <= |regs| && Away(s, regs, x, n)
    ensures var t := Ticks(s, regs[..n]); InQueue(t.queue, x) && t.queue[x.p].saved[x.t] == s.queue[x.p].saved[x.t]
    decreases n
  {
    if n > 0 {
      TicksLeave(s, regs, x, n - 1);
      OneTickMore(s, regs, n - 1);
      assert Ticks(s, regs[..n - 1]).pos != x;
      TickLeaves(Ticks(s, regs[..n - 1]), regs[n - 1], x);
    }
  }

  lemma OneTickMore(s: Sched, regs: seq<Registers>, n: nat)
    requires Inv(s) && s.pos.At? && n < |regs|
    ensures var m := Ticks(s, regs[..n]);
            InQueue(m.queue, m.pos) && Ticks(s, regs[..n + 1]) == Tick(m, regs[n])
  {
    assert regs[..n + 1][..n] == regs[..n];
  }

  /** With ticks alone, a new process is dispatched within one round, with a user start context. */
  lemma StartsInARound(s: Sched, pd: int, garbage: Registers, regs: seq<Registers>) returns (k: int)
    requires Inv(s) && s.pos.At?
    requires var n := Apply(s, OnAddProcess(pd, garbage)); |regs| == Threads(n.queue, |n.queue|)
    ensures 1 <= k <= |regs| && Inv(Apply(s, OnAddProcess(pd, garbage)))
    ensures var t := Ticks(Apply(s, OnAddProcess(pd, garbage)), regs[..k]);
            t.pos == At(|s.queue|, 0) && InQueue(t.queue, t.pos) && StartsUser(Loaded(t))
  {
    var n, x := Apply(s, OnAddProcess(pd, garbage)), At(|s.queue|, 0);
    ApplyKeeps(s, OnAddProcess(pd, garbage));
    k := EveryThreadRuns(n, regs, x);
    forall l | 0 <= l < k ensures Ticks(n, regs[..l]).pos != x {
      if l == 0 { assert regs[..0] == [] && n.pos != x; }
      else if Ticks(n, regs[..l]).pos == x { NoThreadTwice(n, regs, l, k); }
    }
    TicksLeave(n, regs, x, k);
  }

  /** An exit goes on with the first thread of the process behind the one that exits, or of the first process when
      there is none behind it; nobody's context changes. */
  lemma ExitNext(s: Sched)
    requires Inv(s) && CanExit(s)
    ensures var t, p := Exit(s), s.pos.p;
            && InQueue(t.queue, t.pos) && t.pos.t == 0
            && t.queue[t.pos.p] == s.queue[if p + 1 < |s.queue| then p + 1 else 0]
            && Loaded(t) == s.queue[if p + 1 < |s.queue| then p + 1 else 0].saved[0]
  {
    ExitKeeps(s);
  }
}
