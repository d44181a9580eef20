/** The scheduler's linked lists, proved against the state machine in Scheduling, on top of the
    virtual memory manager. */
module Scheduler {
  import opened Dispatch
  import opened Records
  import opened Scheduling
  import AS = AddressSpaces
  import PM = PhysicalMemory
  import SystemRuns

  class Thread {
    var regs: Registers
    var entryPoint: int
    var id: int
    var next: Thread?
    var pmemRegions: seq<nat> // block numbers, from init_thread_stack; not set by scheduler_add_thread
    ghost var proc: Process? // the process it belongs to, and its place in that process's chain
    ghost var place: int

    constructor (id: int, entryPoint: int, regs: Registers, pmemRegions: seq<nat>)
      ensures this.id == id && this.entryPoint == entryPoint && this.regs == regs && next == null
      ensures this.pmemRegions == pmemRegions
    {
      this.id, this.entryPoint, this.regs, this.next, this.pmemRegions := id, entryPoint, regs, null, pmemRegions;
    }
  }

  class Process {
    var threads: Thread
    const blockedThreads: Thread? := null // nothing blocks a thread
    var pdPhysical: int
    var next: Process?
    var id: int
    var threadIDCounter: int
    var pmemRegions: seq<nat> // addresses, from setup_process
    ghost var list: seq<Thread> // the chain that starts at `threads`

    constructor (thread: Thread, pd: int, id: int)
      ensures threads == thread && pdPhysical == pd && next == null && this.id == id && threadIDCounter == 1
      ensures list == [thread] && pmemRegions == []
    {
      pmemRegions := [];
      threads, pdPhysical, next, this.id, threadIDCounter := thread, pd, null, id, 1;
      list := [thread];
    }
  }

  /** The list is the chain that starts at `first`. */
  ghost predicate ThreadChain(first: Thread?, list: seq<Thread>)
    reads list
  {
    first == (if list == [] then null else list[0]) && forall j :: 0 <= j < |list| ==> ChainLink(list, j)
  }

  ghost predicate ChainLink(list: seq<Thread>, j: int)
    requires 0 <= j < |list|
    reads list
  {
    list[j].next == if j + 1 < |list| then list[j + 1] else null
  }

  ghost function RecordLists(list: seq<Thread>): seq<seq<nat>>
    reads list
  {
    seq(|list|, i requires 0 <= i < |list| reads list => list[i].pmemRegions)
  }

  /** The list has one thread more, at its end, with this id, entry point and records. */
  ghost predicate Appended(before: seq<Thread>, list: seq<Thread>, id: int, entryPoint: int, records: seq<nat>)
    reads list
  {
    && |list| == |before| + 1 && list[..|before|] == before
    && var t := list[|before|];
    t.id == id && t.entryPoint == entryPoint && t.pmemRegions == records && t.next == null && StartsUser(t.regs)
  }

  /** The process as add_process makes it: one thread, ready to start, and no records. */
  ghost predicate Fresh(p: Process, id: int, pd: int)
    reads p, p.threads
  {
    && p.id == id && p.pdPhysical == pd && p.threadIDCounter == 1 && p.pmemRegions == []
    && p.list == [p.threads] && p.threads.next == null && p.threads.id == 1 && p.threads.pmemRegions == []
    && StartsUser(p.threads.regs)
  }

  /** Everything process_destroy frees for, in the order it does: no thread is ever blocked. */
  ghost function RecordsOf(p: Process): seq<nat>
    reads p, p.list
  {
    Joined(RecordLists(p.list)) + p.pmemRegions
  }

  /** The blocks the records of the process and of its threads stand for, in 20 bits. */
  ghost function Released(p: Process): set<int>
    reads p, p.list
  {
    (set t, r | t in p.list && r in t.pmemRegions :: r % 0x10_0000) + (set r | r in p.pmemRegions :: r % 0x10_0000)
  }

  ghost function ThreadRecords(list: seq<Thread>): nat
    reads list
  {
    if list == [] then 0 else ThreadRecords(list[..|list| - 1]) + |list[|list| - 1].pmemRegions|
  }

  /** A 32-bit counter after n decrements. */
  ghost function CountedDown(count: int, n: nat): int
    decreases n
  {
    if n == 0 then count else CountedDown(if count == 0 then PM.WRAP - 1 else count - 1, n - 1)
  }

  lemma {:induction false} CountedDownIs(count: PM.Word, n: nat)
    ensures CountedDown(count, n) == (count - n) % PM.WRAP
    decreases n
  {
    if n > 0 {
      CountedDownIs(if count == 0 then PM.WRAP - 1 else count - 1, n - 1);
      assert count == 0 ==> (PM.WRAP - 1 - (n - 1)) % PM.WRAP == (0 - n) % PM.WRAP;
    }
  }

  /** How many records the process and its threads have. */
  ghost function RecordCount(p: Process): nat
    reads p, p.list
  {
    ThreadRecords(p.list) + |p.pmemRegions|
  }

  lemma {:induction false} CountThreads(list: seq<Thread>)
    ensures ThreadRecords(list) == Total(RecordLists(list))
  {
    if list != [] {
      CountThreads(list[..|list| - 1]);
      assert RecordLists(list)[..|list| - 1] == RecordLists(list[..|list| - 1]);
    }
  }

  /** What process_destroy frees for is every record of the process and of its threads. */
  lemma RecordsReleased(p: Process)
    ensures Blocks(FreedAll(RecordsOf(p))) == Released(p) && |RecordsOf(p)| == RecordCount(p)
  {
    var lists := RecordLists(p.list);
    BlocksOfBoth(Joined(lists), p.pmemRegions);
    JoinedBlocks(lists);
    CountThreads(p.list);
    ThreadBlocks(p.list);
    ListBlocks(p.pmemRegions);
  }

  lemma ListBlocks(records: seq<nat>)
    ensures Blocks(FreedAll(records)) == set r | r in records :: r % 0x10_0000
  {
    var x := FreedAll(records);
    forall k | 0 <= k < |x| ensures records[k] in records && x[k] == records[k] % 0x10_0000 {
      FreedBlock(records[k]);
    }
    forall r | r in records ensures r % 0x10_0000 in Blocks(x) {
      var k :| 0 <= k < |records| && records[k] == r;
      assert x[k] == r % 0x10_0000;
    }
  }

  lemma ThreadBlocks(list: seq<Thread>)
    ensures BlocksIn(RecordLists(list)) == set t, r | t in list && r in t.pmemRegions :: r % 0x10_0000
  {
    var lists := RecordLists(list);
    forall t, r | t in list && r in t.pmemRegions ensures r % 0x10_0000 in BlocksIn(lists) {
      var i :| 0 <= i < |list| && list[i] == t;
      var k :| 0 <= k < |t.pmemRegions| && t.pmemRegions[k] == r;
      assert lists[i][k] == r;
    }
    forall i, k | 0 <= i < |lists| && 0 <= k < |lists[i]|
      ensures list[i] in list && lists[i][k] in list[i].pmemRegions
    {
    }
  }

  class Scheduler {
    var pQueue: Process?
    var currentProc: Process?
    var previousProc: Process?
    var currentThread: Thread?
    var idCounter: int
    const vm: AS.VirtualMemory

    ghost var procs: seq<Process> // the chain that starts at pQueue
    ghost var pool: set<Thread> // all their threads, and those of processes that have exited
    ghost var state: Sched

    /** Process i of the chain is process i of the abstract queue. */
    ghost predicate ProcOk(i: int)
      requires 0 <= i < |procs| && |state.queue| == |procs|
      reads `procs, `state, procs
    {
      var p, q := procs[i], state.queue[i];
      && p.next == (if i + 1 < |procs| then procs[i + 1] else null)
      && p.id == q.id && p.pdPhysical == q.pd
      && |p.list| == |q.saved| && 0 < |p.list| && p.threads == p.list[0]
    }

    ghost predicate ThreadOk(i: int, j: int)
      requires 0 <= i < |procs| && |state.queue| == |procs|
      reads `procs, `state, `pool, procs, pool
    {
      var p := procs[i];
      0 <= j < |p.list| == |state.queue[i].saved| ==>
        var t := p.list[j];
        && t in pool && t.proc == p && t.place == j
        && t.next == (if j + 1 < |p.list| then p.list[j + 1] else null)
        && t.regs == state.queue[i].saved[j]
    }

    ghost predicate Apart(i: int, j: int)
      requires 0 <= i < |procs| && 0 <= j < |procs|
      reads `procs
    {
      procs[i] != procs[j]
    }

    /** The chains hold the abstract queue, each node once. */
    ghost predicate Chains()
      reads `pQueue, `procs, `state, `pool, procs, pool
    {
      && |state.queue| == |procs|
      && pQueue == (if procs == [] then null else procs[0])
      && (forall i :: 0 <= i < |procs| ==> ProcOk(i))
      && (forall i, j :: 0 <= i < |procs| ==> ThreadOk(i, j))
      && (forall i, j :: 0 <= i < j < |procs| ==> Apart(i, j))
    }

    /** The globals point at the current process and thread and, when linked, at its predecessor. */
    ghost predicate Globals()
      requires Chains()
      reads this, procs, pool
    {
      && idCounter == state.counter
      && (state.pos.Idle? <==> currentProc == null) && (state.pos.Idle? ==> currentThread == null)
      && (state.pos.At? ==>
            && InQueue(state.queue, state.pos) && ProcOk(state.pos.p)
            && currentProc == procs[state.pos.p] && currentThread == procs[state.pos.p].list[state.pos.t]
            && (state.pos.p > 0 ==> (state.linked <==> previousProc == procs[state.pos.p - 1])))
    }

    ghost predicate Valid()
      reads this, procs, pool
    {
      Inv(state) && Chains() && Globals()
    }

    constructor (vm: AS.VirtualMemory)
      ensures Valid() && state == Sched([], Idle, false, 0) && this.vm == vm
    {
      pQueue, currentProc, previousProc, currentThread, idCounter := null, null, null, null, 0;
      this.vm := vm;
      procs, pool, state := [], {}, Sched([], Idle, false, 0);
    }

    /** scheduler_switch_process up to the reload of the context, when the queue is not empty. */
    method Switch(regs: Registers) returns (loaded: Registers)
      requires Valid() && pQueue != null
      modifies this`currentProc, this`previousProc, this`currentThread, this`state, pool
      ensures Valid() && state == Tick(old(state), regs) && loaded == Loaded(state)
      ensures Crosses(old(state.queue), old(state.pos)) ==> previousProc == old(currentProc)
    {
      TickKeeps(state, regs);
      if currentProc == null {
        assert ProcOk(0) && ThreadOk(0, 0);
        currentProc := pQueue;
        currentThread := currentProc.threads;
        state := Tick(state, regs);
        forall i | 0 <= i < |procs| ensures ProcOk(i) { assert old(ProcOk(i)); }
        forall i, j | 0 <= i < |procs| ensures ThreadOk(i, j) { assert old(ThreadOk(i, j)); }
      } else {
        assert ProcOk(state.pos.p) && ThreadOk(state.pos.p, state.pos.t);
        SaveCurrent(regs);
        Advance();
      }
      assert ProcOk(state.pos.p) && ThreadOk(state.pos.p, state.pos.t);
      loaded := currentThread.regs;
    }

    /** Saves the context of the current thread. */
    method SaveCurrent(regs: Registers)
      requires Valid() && state.pos.At?
      modifies currentThread, this`state
      ensures Inv(state) && Chains() && Globals()
      ensures state == old(state).(queue := Save(old(state.queue), old(state.pos), regs))
    {
      SaveKeeps(state, regs);
      ghost var p, t := state.pos.p, state.pos.t;
      assert ProcOk(p) && ThreadOk(p, t);
      currentThread.regs := regs;
      state := state.(queue := Save(state.queue, state.pos, regs));
      forall i | 0 <= i < |procs| ensures ProcOk(i) { assert old(ProcOk(i)); }
      forall i, j | 0 <= i < |procs| ensures ThreadOk(i, j) {
        assert old(ProcOk(i)) && old(ThreadOk(i, j));
        assert i < p ==> old(Apart(i, p));
        assert p < i ==> old(Apart(p, i));
      }
      forall i, j | 0 <= i < j < |procs| ensures Apart(i, j) { assert old(Apart(i, j)); }
    }

    /** The choice of the next thread, made from the globals and the links alone: the next thread of the
        process, else the first of the next process, else the first of the queue. */
    method Choose()
      requires pQueue != null && currentProc != null && currentThread != null
      modifies this`currentProc, this`previousProc, this`currentThread
      ensures currentProc != null && currentThread != null
      ensures old(currentThread.next) != null ==>
                currentProc == old(currentProc) && currentThread == old(currentThread.next)
                && previousProc == old(previousProc)
      ensures old(currentThread.next) == null ==>
                && previousProc == old(currentProc) && currentThread == currentProc.threads
                && currentProc == if old(currentProc.next) == null then pQueue else old(currentProc.next)
    {
      if currentThread.next == null {
        previousProc := currentProc;
        if currentProc.next == null {
          currentProc := pQueue;
          currentThread := currentProc.threads;
        } else {
          currentProc := currentProc.next;
          currentThread := currentProc.threads;
        }
      } else {
        currentThread := currentThread.next;
      }
    }

    /** In a sound state the choice is the next position of the state machine. */
    method Advance()
      requires Chains() && Globals() && state.pos.At? && Inv(state)
      modifies this`currentProc, this`previousProc, this`currentThread, this`state
      ensures Chains() && Globals()
      ensures Crosses(old(state.queue), old(state.pos)) ==> previousProc == old(currentProc)
      ensures state == old(state).(pos := NextPos(old(state.queue), old(state.pos)),
                       linked := old(state.linked) || Crosses(old(state.queue), old(state.pos)))
    {
      ghost var p, t := state.pos.p, state.pos.t;
      assert ProcOk(0) && ProcOk(p) && ThreadOk(p, t);
      assert p + 1 < |procs| ==> ProcOk(p + 1);
      assert TaskOk(state, 0) && (p + 1 < |procs| ==> TaskOk(state, p + 1));
      Choose();
      ghost var crosses := Crosses(state.queue, state.pos);
      state := state.(pos := NextPos(state.queue, state.pos), linked := state.linked || crosses);
      forall i | 0 <= i < |procs| ensures ProcOk(i) { assert old(ProcOk(i)); }
      forall i, j | 0 <= i < |procs| ensures ThreadOk(i, j) { assert old(ThreadOk(i, j)); }
      assert ProcOk(state.pos.p);
    }

    /** The queue half of scheduler_remove_current_process, from the globals and the links alone. */
    method Unlink(regs: Registers) returns (loaded: Registers)
      requires pQueue != null && currentProc != null && currentThread != null && previousProc != null
      modifies this`currentProc, this`previousProc, this`currentThread, previousProc`next, currentThread`regs
      ensures old(previousProc).next == old(currentProc.next) && old(currentThread).regs == regs
      ensures currentProc != null && currentThread != null && loaded == currentThread.regs
      ensures old(currentThread.next) != null ==> currentProc == old(currentProc)
      ensures old(currentThread.next) == null ==>
                && previousProc == old(currentProc) && currentThread == currentProc.threads
                && currentProc == if old(currentProc.next) == null then pQueue else old(currentProc.next)
    {
      previousProc.next := currentProc.next;
      currentThread.regs := regs;
      Choose();
      loaded := currentThread.regs;
    }

    /** A sound exit takes the current process out of the queue and goes on with its successor. */
    method Remove(regs: Registers) returns (loaded: Registers)
      requires Valid() && CanExit(state)
      modifies this`currentProc, this`previousProc, this`currentThread, this`procs, this`state
      modifies previousProc`next, currentThread`regs
      ensures Valid() && state == Exit(old(state)) && loaded == Loaded(state)
      ensures procs == Without(old(procs), old(state.pos.p))
    {
      ghost var p, t := state.pos.p, state.pos.t;
      assert ProcOk(p) && ThreadOk(p, t) && ProcOk(0) && ProcOk(p - 1);
      assert p + 1 < |procs| ==> ProcOk(p + 1);
      ExitKeeps(state);
      loaded := Unlink(regs);
      forall i | 0 <= i < |procs| && i != p ensures Bypasses(p, i) {
        assert old(ProcOk(i));
        assert i < p - 1 ==> old(Apart(i, p - 1));
        assert p - 1 < i ==> old(Apart(p - 1, i));
      }
      forall i, j | 0 <= i < |procs| && i != p ensures ThreadOk(i, j) {
        assert old(ProcOk(i)) && old(ThreadOk(i, j));
        assert if i < p then old(Apart(i, p)) else old(Apart(p, i));
      }
      forall i, j | 0 <= i < j < |procs| ensures Apart(i, j) { assert old(Apart(i, j)); }
      Forget(p);
      assert ProcOk(state.pos.p) && ThreadOk(state.pos.p, 0);
    }

    /** Process i is as the abstract queue says, except that process p is left out of the links. */
    ghost predicate Bypasses(p: int, i: int)
      requires 0 <= i < |procs| && |state.queue| == |procs| && 0 < p < |procs|
      reads `procs, `state, procs
    {
      var c, q, n := procs[i], state.queue[i], if i + 1 == p then p + 1 else i + 1;
      && c.next == (if n < |procs| then procs[n] else null)
      && c.id == q.id && c.pdPhysical == q.pd
      && |c.list| == |q.saved| && 0 < |c.list| && c.threads == c.list[0]
    }

    /** Takes process p, which the links already bypass, out of the abstract queue. */
    ghost method Forget(p: int)
      requires |state.queue| == |procs| && CanExit(state) && state.pos.p == p && 0 < p < |procs| && pQueue == procs[0]
      requires Inv(Exit(state)) && idCounter == state.counter
      requires forall i :: 0 <= i < |procs| && i != p ==> Bypasses(p, i)
      requires forall i, j :: 0 <= i < |procs| && i != p ==> ThreadOk(i, j)
      requires forall i, j :: 0 <= i < j < |procs| ==> Apart(i, j)
      requires previousProc == procs[p] && currentThread != null && currentProc != null
               && currentThread == currentProc.threads
      requires currentProc == if p + 1 < |procs| then procs[p + 1] else procs[0]
      modifies this`procs, this`state
      ensures Valid() && state == Exit(old(state)) && procs == Without(old(procs), p)
    {
      procs := Without(procs, p);
      state := Exit(state);
      forall i | 0 <= i < |procs| ensures ProcOk(i) { assert old(Bypasses(p, if i < p then i else i + 1)); }
      forall i, j | 0 <= i < |procs| ensures ThreadOk(i, j) {
        assert old(Bypasses(p, if i < p then i else i + 1)) && old(ThreadOk(if i < p then i else i + 1, j));
      }
      forall i, j | 0 <= i < j < |procs| ensures Apart(i, j) {
        assert old(Apart(if i < p then i else i + 1, if j < p then j else j + 1));
      }
      assert ProcOk(state.pos.p) && ThreadOk(state.pos.p, 0);
      assert state.pos.p > 0 ==> old(Apart(p - 1, p));
    }

    /** Any other exit goes wrong: the process that exits stays the head of the queue, stays current, or
        stays linked from its predecessor. */
    method RemoveUnsound(regs: Registers) returns (loaded: Registers)
      requires Valid() && state.pos.At? && previousProc != null && !CanExit(state)
      modifies this`currentProc, this`previousProc, this`currentThread
      modifies previousProc`next, currentThread`regs
      ensures
        || (state.pos.p == 0 && pQueue == old(currentProc))
        || currentProc == old(currentProc)
        || (state.pos.p > 0 && procs[state.pos.p - 1].next == old(currentProc))
    {
      ghost var p, t := state.pos.p, state.pos.t;
      assert ProcOk(p) && ThreadOk(p, t) && (p > 0 ==> ProcOk(p - 1));
      loaded := Unlink(regs);
    }

    /** An exit that goes wrong: the only process, after two ticks, asks to exit and stays at the head of the
        queue. */
    method HeadExitExample(pd: int, regs: Registers) returns (loaded: Registers)
      requires Valid() && state == Sched([], Idle, false, 0)
      modifies this`pQueue, this`idCounter, this`procs, this`pool, this`state
      modifies this`currentProc, this`previousProc, this`currentThread, procs, pool
      ensures !CanExit(state) && state.pos == At(0, 0) && |procs| == 1 && pQueue == procs[0]
    {
      var id := Create(pd, regs);
      assert ProcOk(0) && ThreadOk(0, 0);
      loaded := Switch(regs);
      assert ProcOk(0) && ThreadOk(0, 0);
      loaded := Switch(regs);
      assert ProcOk(0) && ThreadOk(0, 0);
      loaded := RemoveUnsound(regs);
    }

    /** The loop that walks to the last process. */
    method LastProcess() returns (p: Process)
      requires Chains() && pQueue != null
      ensures p == procs[|procs| - 1] && p.next == null
    {
      p := pQueue;
      ghost var i := 0;
      assert ProcOk(0);
      while p.next != null
        invariant 0 <= i < |procs| && p == procs[i] && ProcOk(i)
        decreases |procs| - i
      {
        p := p.next;
        i := i + 1;
        assert ProcOk(i);
      }
    }

    /** Appends a process with one thread to the queue: the tail of scheduler_add_process and
        scheduler_add_kernel_process. */
    method Enqueue(newProc: Process, thread: Thread, pd: int)
      requires Valid() && newProc !in procs && thread !in pool
      requires newProc.threads == thread && newProc.list == [thread] && thread.next == null && newProc.next == null
      requires newProc.id == idCounter + 1 && newProc.pdPhysical == pd && thread.proc == newProc && thread.place == 0
      modifies this`pQueue, this`idCounter, this`procs, this`pool, this`state, procs
      ensures Valid() && state == AddProcess(old(state), pd, thread.regs)
      ensures procs == old(procs) + [newProc] && pool == old(pool) + {thread}
    {
      AddProcessKeeps(state, pd, thread.regs);
      idCounter := idCounter + 1;
      if pQueue == null {
        pQueue := newProc;
        procs, pool := [newProc], pool + {thread};
        state := AddProcess(state, pd, thread.regs);
      } else {
        var p := LastProcess();
        LinkProcess(p, newProc, thread, pd);
      }
      assert state.pos.At? ==> old(ProcOk(state.pos.p));
    }

    method LinkProcess(last: Process, newProc: Process, thread: Thread, pd: int)
      requires Chains() && procs != [] && last == procs[|procs| - 1] && newProc !in procs && thread !in pool
      requires newProc.threads == thread && newProc.list == [thread] && thread.next == null && newProc.next == null
      requires newProc.id == state.counter + 1 && newProc.pdPhysical == pd && thread.proc == newProc
               && thread.place == 0
      modifies this`procs, this`pool, this`state, last`next
      ensures Chains() && state == AddProcess(old(state), pd, thread.regs)
      ensures procs == old(procs) + [newProc] && pool == old(pool) + {thread}
    {
      ghost var n := |procs|;
      last.next := newProc;
      procs, pool := procs + [newProc], pool + {thread};
      state := AddProcess(state, pd, thread.regs);
      forall k | 0 <= k < |procs| ensures ProcOk(k) {
        assert k < n ==> old(ProcOk(k));
        assert k < n - 1 ==> old(Apart(k, n - 1));
      }
      forall k, l | 0 <= k < |procs| ensures ThreadOk(k, l) { assert k < n ==> old(ProcOk(k)) && old(ThreadOk(k, l)); }
      forall k, l | 0 <= k < l < |procs| ensures Apart(k, l) { assert l < n ==> old(Apart(k, l)); }
    }

    /** scheduler_add_thread, with the registers add_thread sets over what the memory held. The list of memory
        records, `held`, it does not set at all. */
    method OnAddThread(procID: int, entryPoint: int, garbage: Registers, held: seq<nat>) returns (id: int)
      requires Valid()
      modifies this`pool, this`state, procs, pool
      ensures Valid() && state == AddThread(old(state), procID, UserStart(garbage))
      ensures procs == old(procs) && |procs| == |old(state.queue)|
      ensures var i := FindId(old(state.queue), procID);
              if i == |procs| then id == 0
              else id == old(procs[i].threadIDCounter) + 1 == procs[i].threadIDCounter &&
                   Appended(old(procs[i].list), procs[i].list, id, entryPoint, held)
    {
      var proc := pQueue;
      ghost var i := 0;
      if procs != [] { assert ProcOk(0); }
      while proc != null
        invariant 0 <= i <= |procs| && proc == if i < |procs| then procs[i] else null
        invariant forall k :: 0 <= k < i ==> state.queue[k].id != procID
        decreases |procs| - i
      {
        assert ProcOk(i);
        if proc.id == procID { break; }
        proc := proc.next;
        i := i + 1;
      }
      assert i == FindId(state.queue, procID);
      if proc == null { return 0; }
      id := Append(proc, i, entryPoint, garbage, held);
    }

    /** The loop that walks to the last thread of process i. */
    method LastThread(proc: Process, ghost i: int) returns (thread: Thread)
      requires Valid() && 0 <= i < |procs| && proc == procs[i]
      ensures 0 < |proc.list| && thread == proc.list[|proc.list| - 1] && thread.next == null && thread in pool
    {
      thread := proc.threads;
      ghost var j := 0;
      assert ProcOk(i) && ThreadOk(i, 0);
      while thread.next != null
        invariant 0 <= j < |proc.list| && thread == proc.list[j] && ThreadOk(i, j)
        decreases |proc.list| - j
      {
        assert ThreadOk(i, j + 1);
        thread := thread.next;
        j := j + 1;
      }
    }

    /** The end of scheduler_add_thread: makes a thread and links it after the last one of process i. */
    method Append(proc: Process, ghost i: int, entryPoint: int, garbage: Registers, held: seq<nat>) returns (id: int)
      requires Valid() && 0 <= i < |procs| && proc == procs[i]
      modifies this`pool, this`state, procs, pool
      ensures Valid() && state == AddThreadTo(old(state), i, UserStart(garbage))
      ensures id == old(proc.threadIDCounter) + 1 == proc.threadIDCounter
      ensures Appended(old(proc.list), proc.list, id, entryPoint, held)
    {
      var thread := LastThread(proc, i);
      var newThread := new Thread(proc.threadIDCounter + 1, entryPoint, UserStart(garbage), held);
      newThread.proc, newThread.place := proc, |proc.list|;
      Link(proc, i, thread, newThread);
      id := newThread.id;
    }

    method Link(proc: Process, ghost i: int, last: Thread, newThread: Thread)
      requires Valid() && 0 <= i < |procs| && proc == procs[i]
      requires 0 < |proc.list| && last == proc.list[|proc.list| - 1] && newThread !in pool && newThread.next == null
      requires newThread.proc == proc && newThread.place == |proc.list|
      modifies this`pool, this`state, proc`threadIDCounter, proc`list, last`next
      ensures Valid() && state == AddThreadTo(old(state), i, newThread.regs)
      ensures proc.threadIDCounter == old(proc.threadIDCounter) + 1 && proc.list == old(proc.list) + [newThread]
    {
      AddThreadKeeps(state, i, newThread.regs);
      assert ProcOk(i) && ThreadOk(i, |proc.list| - 1);
      proc.threadIDCounter := proc.threadIDCounter + 1;
      last.next := newThread;
      proc.list := proc.list + [newThread];
      pool := pool + {newThread};
      state := AddThreadTo(state, i, newThread.regs);
      forall k | 0 <= k < |procs| ensures ProcOk(k) { assert old(ProcOk(k)); OtherProc(i, k); }
      forall k, l | 0 <= k < |procs| ensures ThreadOk(k, l) {
        assert old(ProcOk(k)) && old(ThreadOk(k, l));
        OtherProc(i, k);
      }
      forall k, l | 0 <= k < l < |procs| ensures Apart(k, l) { OtherProc(k, l); }
      assert state.pos.At? ==> old(ProcOk(state.pos.p));
    }

    lemma OtherProc(i: int, k: int)
      requires 0 <= i < |procs| && 0 <= k < |procs| && forall a, b :: 0 <= a < b < |procs| ==> Apart(a, b)
      ensures i != k ==> procs[i] != procs[k]
    {
      assert i < k ==> Apart(i, k);
      assert k < i ==> Apart(k, i);
    }

    // ----- with the memory manager -----

    ghost function Sys(): SystemRuns.System
      requires vm.frames.Sized()
      reads `state, vm, vm.frames, vm.frames.bitmap
    {
      SystemRuns.System(vm.Mem(), state)
    }

    /** The queue and memory are sound together. */
    ghost predicate Sound()
      reads `state, vm, vm.frames, vm.frames.bitmap
    {
      vm.frames.Sized() && SystemRuns.SystemInv(vm.frames.maxBlocks, Sys())
    }

    /** Activates the current process's directory: the second half of scheduler_switch_process. */
    method SwitchSpace()
      requires Valid() && InQueue(state.queue, state.pos)
      requires vm.Valid() && vm.TempReady() && Housed(state.queue, vm.dirs)
      modifies vm, vm.frames`usedBlocks, vm.frames.bitmap
      ensures Valid() && Sound() && Sys() == SystemRuns.Activated(vm.frames.maxBlocks, old(Sys()))
    {
      SystemRuns.ActivateKeeps(vm.frames.maxBlocks, Sys());
      SystemRuns.HousedActive(vm.frames.maxBlocks, Sys(), vm.dirs);
      CurrentChain();
      vm.SwitchTo(currentProc.pdPhysical);
    }

    /** scheduler_tick: `regs` is what the CPU held, `loaded` what it resumes with. */
    method OnTick(regs: Registers) returns (loaded: Registers)
      requires Valid() && Sound()
      modifies this`currentProc, this`previousProc, this`currentThread, this`state, pool
      modifies vm, vm.frames`usedBlocks, vm.frames.bitmap
      ensures Valid() && Sound()
      ensures Sys() == SystemRuns.TickDone(vm.frames.maxBlocks, old(Sys()), regs)
      ensures pQueue != null ==> AS.SwitchEffect(old(vm.View()), vm.View())
      ensures AS.Keeps(old(vm.View()), vm.View(), {AS.TEMP_KEY})
      ensures loaded == if InQueue(state.queue, state.pos) then Loaded(state) else regs
    {
      SystemRuns.TickStep(vm.frames.maxBlocks, Sys(), regs);
      loaded := SwitchProcess(regs);
    }

    /** scheduler_switch_process. */
    method SwitchProcess(regs: Registers) returns (loaded: Registers)
      requires Valid() && Sound()
      modifies this`currentProc, this`previousProc, this`currentThread, this`state, pool
      modifies vm, vm.frames`usedBlocks, vm.frames.bitmap
      ensures Valid() && vm.frames.Sized()
      ensures Sys() == SystemRuns.TickDone(vm.frames.maxBlocks, old(Sys()), regs)
      ensures loaded == if InQueue(state.queue, state.pos) then Loaded(state) else regs
    {
      if pQueue == null { return regs; }
      TickKeeps(state, regs);
      HousedAfterTick(state, regs, vm.dirs);
      loaded := Switch(regs);
      SwitchSpace();
    }

    /** The process and thread records of add_process, queued. */
    method Create(pd: int, garbage: Registers) returns (id: int)
      requires Valid()
      modifies this`pQueue, this`idCounter, this`procs, this`pool, this`state, procs
      ensures Valid() && state == AddProcess(old(state), pd, UserStart(garbage)) && id == state.counter
      ensures fresh(pool - old(pool)) && |procs| == |old(procs)| + 1 && procs[..|old(procs)|] == old(procs)
      ensures fresh(procs[|old(procs)|]) && Fresh(procs[|old(procs)|], id, pd)
    {
      var thread := new Thread(1, 0, UserStart(garbage), []);
      var newProc := new Process(thread, pd, idCounter + 1);
      thread.proc, thread.place := newProc, 0;
      Enqueue(newProc, thread, pd);
      id := newProc.id;
    }

    /** scheduler_add_process: `binary` says whether there is a program to load. */
    method OnAddProcess(binary: bool, garbage: Registers) returns (id: int)
      requires Valid() && Sound()
      modifies this`pQueue, this`idCounter, this`procs, this`pool, this`state, procs
      modifies vm, vm.frames`usedBlocks, vm.frames.bitmap
      ensures Valid() && Sound()
      ensures Sys() == if binary then SystemRuns.ProcessDone(vm.frames.maxBlocks, old(Sys()), garbage) else old(Sys())
      ensures id == if binary && !old(vm.NoBlock()) then state.counter else 0
      ensures if binary && !old(vm.NoBlock()) then Queued(old(procs), old(vm.dirs), id) else procs == old(procs)
    {
      if !binary { return 0; }
      SystemRuns.NewProcessStep(vm.frames.maxBlocks, Sys(), garbage);
      id := AddBinary(garbage);
    }

    /** The queue has one process more, at its end, just made, with a directory that was not there before. */
    ghost predicate Queued(before: seq<Process>, dirs: set<int>, id: int)
      reads `procs, vm`dirs, procs, set p | p in procs :: p.threads
    {
      && |procs| == |before| + 1 && procs[..|before|] == before
      && var p := procs[|before|];
      Fresh(p, id, p.pdPhysical) && p.pdPhysical in vm.dirs && p.pdPhysical !in dirs
    }

    /** scheduler_add_process when there is a program. */
    method AddBinary(garbage: Registers) returns (id: int)
      requires Valid() && vm.Valid() && vm.TempReady()
      modifies this`pQueue, this`idCounter, this`procs, this`pool, this`state, procs
      modifies vm, vm.frames`usedBlocks, vm.frames.bitmap
      ensures Valid() && vm.frames.Sized() && vm.Mem() == AS.DirectoryDone(old(vm.Mem()), vm.frames.maxBlocks)
      ensures var pd := old(AS.NewBlock(vm.Mem(), vm.frames.maxBlocks));
              state == if pd == 0 then old(state) else AddProcess(old(state), pd, UserStart(garbage))
      ensures id == if old(vm.NoBlock()) then 0 else state.counter
      ensures if old(vm.NoBlock()) then procs == old(procs) else Queued(old(procs), old(vm.dirs), id)
    {
      var pd := vm.NewDirectory();
      if pd == 0 { return 0; }
      id := Create(pd, garbage);
    }

    /** scheduler_remove_current_process: `stk` holds the registers on entry and `stk'` those on return; the
        saved stack pointer of the kernel stays. Queue and memory are still sound exactly when every block that
        the process's records make it free may be freed. */
    method OnExit(stk: Registers) returns (stk': Registers)
      requires Valid() && Sound() && CanExit(state)
      modifies this`currentProc, this`previousProc, this`currentThread, this`procs, this`state
      modifies previousProc`next, currentThread`regs
      modifies vm, vm.frames`usedBlocks, vm.frames.bitmap
      ensures Valid() && vm.frames.Sized() && old(currentProc) != null && InQueue(state.queue, state.pos)
      ensures Sys() == SystemRuns.ExitDone(vm.frames.maxBlocks, old(Sys()), old(RecordsOf(currentProc)))
      ensures Sound() <==> SystemRuns.SafeExit(old(Sys()), old(RecordsOf(currentProc)))
      ensures AS.Keeps(old(vm.View()), vm.View(), {AS.TEMP_KEY}) && AS.SwitchEffect(old(vm.View()), vm.View())
      ensures vm.frames.Used() == old(vm.frames.Used() - Released(currentProc) - {currentProc.pdPhysical})
      ensures vm.frames.usedBlocks == old(CountedDown(vm.frames.usedBlocks, RecordCount(currentProc) + 1))
      ensures stk' == Loaded(state).(esp := stk.esp)
    {
      ExitReleases();
      stk' := RemoveCurrent(stk);
    }

    /** What the exit gives back. */
    lemma ExitReleases()
      requires Valid() && Sound() && CanExit(state)
      ensures currentProc != null
      ensures var m := SystemRuns.ExitDone(vm.frames.maxBlocks, Sys(), RecordsOf(currentProc)).mem;
              && m.used == vm.frames.Used() - Released(currentProc) - {currentProc.pdPhysical}
              && m.counter == CountedDown(vm.frames.usedBlocks, RecordCount(currentProc) + 1)
    {
      CurrentChain();
      RecordsReleased(currentProc);
      SystemRuns.ExitFrees(vm.frames.maxBlocks, Sys(), RecordsOf(currentProc));
      CountedDownIs(vm.frames.usedBlocks, RecordCount(currentProc) + 1);
    }

    /** Its steps, with the records of the process as one list. */

    method RemoveCurrent(stk: Registers) returns (stk': Registers)
      requires Valid() && Sound() && CanExit(state)
      modifies this`currentProc, this`previousProc, this`currentThread, this`procs, this`state
      modifies previousProc`next, currentThread`regs
      modifies vm, vm.frames`usedBlocks, vm.frames.bitmap
      ensures Valid() && vm.frames.Sized() && old(currentProc) != null && InQueue(state.queue, state.pos)
      ensures Sys() == SystemRuns.ExitDone(vm.frames.maxBlocks, old(Sys()), old(RecordsOf(currentProc)))
      ensures Sound() <==> SystemRuns.SafeExit(old(Sys()), old(RecordsOf(currentProc)))
      ensures AS.Keeps(old(vm.View()), vm.View(), {AS.TEMP_KEY}) && AS.SwitchEffect(old(vm.View()), vm.View())
      ensures stk' == Loaded(state).(esp := stk.esp)
    {
      CurrentChain();
      ExitKeeps(state);
      SystemRuns.ExitStep(vm.frames.maxBlocks, Sys(), RecordsOf(currentProc));
      stk' := Leave(stk);
    }

    /** The steps of scheduler_remove_current_process. */
    method Leave(stk: Registers) returns (stk': Registers)
      requires Valid() && Sound() && CanExit(state)
      modifies this`currentProc, this`previousProc, this`currentThread, this`procs, this`state
      modifies previousProc`next, currentThread`regs
      modifies vm, vm.frames`usedBlocks, vm.frames.bitmap
      ensures Valid() && vm.frames.Sized() && state == Exit(old(state)) && InQueue(state.queue, state.pos)
      ensures old(currentProc) != null
      ensures Sys() == SystemRuns.ExitDone(vm.frames.maxBlocks, old(Sys()), old(RecordsOf(currentProc)))
      ensures stk' == Loaded(state).(esp := stk.esp)
    {
      CurrentChain();
      SystemRuns.HousedActive(vm.frames.maxBlocks, Sys(), vm.dirs);
      ghost var records := RecordsOf(currentProc);
      var procToRemove := currentProc;
      var pdPhysical := procToRemove.pdPhysical;
      var regs := TakeOut(stk);
      Depart(procToRemove, pdPhysical, records);
      stk' := regs.(esp := stk.esp);
    }

    /** The memory half of it: the next process's directory is activated, then the old one's memory given up. */
    method Depart(proc: Process, pd: int, ghost records: seq<nat>)
      requires Valid() && InQueue(state.queue, state.pos) && SystemRuns.CurrentDir(state) != pd
      requires vm.Valid() && vm.TempReady() && Housed(state.queue, vm.dirs) && pd in vm.dirs && 0 <= pd < PM.BITS
      requires ThreadChain(proc.threads, proc.list) && records == RecordsOf(proc)
      modifies vm, vm.frames`usedBlocks, vm.frames.bitmap
      ensures Valid() && vm.frames.Sized()
      ensures vm.Mem() == AS.ExitDone(SystemRuns.Activated(vm.frames.maxBlocks, old(Sys())).mem, pd, FreedAll(records))
    {
      SystemRuns.ActivateKeeps(vm.frames.maxBlocks, Sys());
      SwitchSpace();
      Discard(proc, pd, records);
    }

    lemma CurrentChain()
      requires Valid() && InQueue(state.queue, state.pos)
      ensures currentProc != null && currentThread != null && ThreadChain(currentProc.threads, currentProc.list)
      ensures currentProc.pdPhysical == SystemRuns.CurrentDir(state)
    {
      var p := state.pos.p;
      assert ProcOk(p) && currentProc == procs[p];
      forall j | 0 <= j < |currentProc.list| ensures ChainLink(currentProc.list, j) { assert ThreadOk(p, j); }
    }

    /** The exit from the queue. */
    method TakeOut(regs: Registers) returns (loaded: Registers)
      requires Valid() && Sound() && CanExit(state)
      modifies this`currentProc, this`previousProc, this`currentThread, this`procs, this`state
      modifies previousProc`next, currentThread`regs
      ensures Valid() && state == Exit(old(state)) && loaded == Loaded(state) && InQueue(state.queue, state.pos)
      ensures Housed(state.queue, vm.dirs) && SystemRuns.CurrentDir(state) != old(SystemRuns.CurrentDir(state))
      ensures old(currentProc) != null && ThreadChain(old(currentProc).threads, old(currentProc).list)
      ensures RecordsOf(old(currentProc)) == old(RecordsOf(currentProc))
    {
      CurrentChain();
      ghost var pd, proc, lists := SystemRuns.CurrentDir(state), currentProc, RecordLists(currentProc.list);
      HousedAfterExit(state, vm.dirs);
      loaded := Remove(regs);
      forall j | 0 <= j < |proc.list| ensures ChainLink(proc.list, j) { assert old(ChainLink(currentProc.list, j)); }
      assert RecordLists(proc.list) == lists;
      HousedMore(state.queue, vm.dirs - {pd}, vm.dirs);
      assert HasDirectory(state.queue, vm.dirs - {pd}, state.pos.p);
    }

    /** process_destroy, and the directory of a process that has left the queue. */
    method Discard(proc: Process, pd: int, ghost records: seq<nat>)
      requires Valid() && vm.frames.Sized() && 0 <= pd < PM.BITS
      requires ThreadChain(proc.threads, proc.list) && records == RecordsOf(proc)
      modifies vm`dirs, vm`owner, vm`committed, vm.frames`usedBlocks, vm.frames.bitmap
      ensures Valid() && vm.frames.Sized() && vm.Mem() == AS.ExitDone(old(vm.Mem()), pd, FreedAll(records))
    {
      PM.WrapMinus(vm.frames.usedBlocks - |records|, 1);
      Destroy(proc, records);
      vm.frames.FreeBlock(pd);
      vm.Abandon(pd);
    }

    /** process_destroy: for each record of each thread, running or blocked, and then of the process, frees the
        block the record makes it free. */
    method Destroy(proc: Process, ghost records: seq<nat>)
      requires ThreadChain(proc.threads, proc.list) && vm.frames.Sized() && records == RecordsOf(proc)
      modifies vm.frames`usedBlocks, vm.frames.bitmap
      ensures vm.frames.Sized() && vm.frames.Used() == old(vm.frames.Used()) - Blocks(FreedAll(records))
      ensures vm.frames.usedBlocks == (old(vm.frames.usedBlocks) - |records|) % PM.WRAP
    {
      MoreFreed(vm.frames.Used(), vm.frames.usedBlocks, Joined(RecordLists(proc.list)), proc.pmemRegions);
      DestroyThreads(proc.threads, proc.list);
      DestroyThreads(proc.blockedThreads, []);
      FreeRecords(proc.pmemRegions);
    }

    /** Its loops over the threads of a chain. */
    method DestroyThreads(first: Thread?, ghost list: seq<Thread>)
      requires ThreadChain(first, list) && vm.frames.Sized()
      modifies vm.frames`usedBlocks, vm.frames.bitmap
      ensures vm.frames.Sized()
      ensures vm.frames.Used() == old(vm.frames.Used()) - Blocks(FreedAll(Joined(RecordLists(list))))
      ensures vm.frames.usedBlocks == (old(vm.frames.usedBlocks) - |Joined(RecordLists(list))|) % PM.WRAP
    {
      ghost var used, count, lists, j := vm.frames.Used(), vm.frames.usedBlocks, RecordLists(list), 0;
      var thread := first;
      while thread != null
        invariant 0 <= j <= |list| && thread == if j < |list| then list[j] else null
        invariant vm.frames.Sized() && vm.frames.Used() == used - Blocks(FreedAll(Joined(lists[..j])))
        invariant vm.frames.usedBlocks == (count - |Joined(lists[..j])|) % PM.WRAP
        decreases |list| - j
        modifies vm.frames`usedBlocks, vm.frames.bitmap
      {
        assert ChainLink(list, j);
        MoreFreed(used, count, Joined(lists[..j]), lists[j]);
        JoinedStep(lists, j);
        FreeRecords(thread.pmemRegions);
        thread := thread.next;
        j := j + 1;
      }
      assert lists[..j] == lists;
    }

    /** The innermost loops of process_destroy. */
    method FreeRecords(records: seq<nat>)
      requires vm.frames.Sized()
      modifies vm.frames`usedBlocks, vm.frames.bitmap
      ensures vm.frames.Sized() && vm.frames.Used() == old(vm.frames.Used()) - Blocks(FreedAll(records))
      ensures vm.frames.usedBlocks == (old(vm.frames.usedBlocks) - |records|) % PM.WRAP
    {
      for k := 0 to |records|
        invariant vm.frames.Sized() && vm.frames.Used() == old(vm.frames.Used()) - Blocks(FreedAll(records[..k]))
        invariant vm.frames.usedBlocks == (old(vm.frames.usedBlocks) - k) % PM.WRAP
        modifies vm.frames`usedBlocks, vm.frames.bitmap
      {
        OneFreed(old(vm.frames.Used()), old(vm.frames.usedBlocks), records, k);
        vm.frames.FreeBlock(FreedFor(records[k]));
      }
      assert records[..|records|] == records;
    }
  }

  lemma MoreFreed(used: set<int>, count: int, a: seq<nat>, b: seq<nat>)
    ensures used - Blocks(FreedAll(a)) - Blocks(FreedAll(b)) == used - Blocks(FreedAll(a + b))
    ensures ((count - |a|) % PM.WRAP - |b|) % PM.WRAP == (count - |a + b|) % PM.WRAP
  {
    BlocksOfBoth(a, b);
    PM.WrapMinus(count - |a|, |b|);
  }

  lemma OneFreed(used: set<int>, count: int, records: seq<nat>, k: nat)
    requires k < |records|
    ensures used - Blocks(FreedAll(records[..k])) - {FreedFor(records[k])} == used - Blocks(FreedAll(records[..k + 1]))
    ensures ((count - k) % PM.WRAP - 1) % PM.WRAP == (count - (k + 1)) % PM.WRAP
  {
    assert records[..k + 1] == records[..k] + [records[k]];
    BlocksOfBoth(records[..k], [records[k]]);
    assert FreedAll([records[k]])[0] == FreedFor(records[k]);
    PM.WrapMinus(count - k, 1);
  }
}
