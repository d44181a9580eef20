/** The scheduler and the virtual memory manager together, over whole runs. */
module SystemRuns {
  import opened Paging
  import opened Records
  import opened Scheduling
  import AS = AddressSpaces

  /** Memory and the process queue. */
  datatype System = System(mem: AS.Memory, sched: Sched)

  /** The calls of the kernel: page (i, j) of the active address space is mapped, backed or opened to user
      mode; a tick; processes and threads come; the current process exits, with the records its threads and
      it have. */
  datatype Event =
    | MapPage(i: int, j: int, phys: PageNumber)
    | AllocPage(i: int, j: int)
    | OpenPage(i: int, j: int)
    | TimerTick(regs: Registers)
    | NewProcess(garbage: Registers)
    | NewThread(id: int, garbage: Registers)
    | ProcessExit(records: seq<nat>)

  /** The directory of the current process. */
  function CurrentDir(s: Sched): int
    requires InQueue(s.queue, s.pos)
  {
    s.queue[s.pos.p].pd
  }

  /** The current process's directory is activated. */
  ghost function Activated(limit: nat, s: System): System
    requires limit <= TOP && InQueue(s.sched.queue, s.sched.pos)
  {
    var pd := CurrentDir(s.sched);
    if 0 <= pd < 0x10_0000 then s.(mem := AS.SwitchDone(s.mem, limit, pd)) else s
  }

  ghost function Step(limit: nat, s: System, e: Event): System
    requires limit <= TOP
  {
    match e
    case MapPage(i, j, phys) => s.(mem := AS.MapDone(s.mem, limit, i, j, phys))
    case AllocPage(i, j) => s.(mem := AS.AllocDone(s.mem, limit, i, j))
    case OpenPage(i, j) => s.(mem := s.mem.(spaces := AS.OpenDone(s.mem.spaces, i, j)))
    case TimerTick(regs) => TickDone(limit, s, regs)
    case NewProcess(garbage) => ProcessDone(limit, s, garbage)
    case NewThread(id, garbage) => s.(sched := Apply(s.sched, OnAddThread(id, garbage)))
    case ProcessExit(records) => ExitDone(limit, s, records)
  }

  ghost function TickDone(limit: nat, s: System, regs: Registers): System
    requires limit <= TOP
  {
    var t := s.(sched := Apply(s.sched, OnTick(regs)));
    if s.sched.queue == [] || !InQueue(t.sched.queue, t.sched.pos) then s else Activated(limit, t)
  }

  ghost function ProcessDone(limit: nat, s: System, garbage: Registers): System
    requires limit <= TOP
  {
    var pd := AS.NewBlock(s.mem, limit);
    if pd == 0 then s else System(AS.DirectoryDone(s.mem, limit), Apply(s.sched, OnAddProcess(pd, garbage)))
  }

  ghost function ExitDone(limit: nat, s: System, records: seq<nat>): System
    requires limit <= TOP
  {
    var t := s.(sched := Apply(s.sched, OnExit));
    if !CanExit(s.sched) || !InQueue(t.sched.queue, t.sched.pos) then s
    else
      var u := Activated(limit, t);
      u.(mem := AS.ExitDone(u.mem, CurrentDir(s.sched), FreedAll(records)))
  }

  /** Every queued process has a directory of its own, and the current one's is active. */
  ghost predicate SystemInv(limit: nat, s: System) {
    && AS.MemoryInv(s.mem, limit) && AS.HasTable(s.mem.spaces, AS.TEMP_DIR)
    && Inv(s.sched) && Housed(s.sched.queue, s.mem.spaces.dirs)
    && (InQueue(s.sched.queue, s.sched.pos) ==> s.mem.spaces.active == CurrentDir(s.sched))
  }

  /** Every block an exit with these records frees may be freed. */
  ghost predicate SafeExit(s: System, records: seq<nat>)
    requires CanExit(s.sched)
  {
    forall k :: 0 <= k < |records| ==> AS.MayFree(s.mem.spaces, CurrentDir(s.sched), FreedFor(records[k]))
  }

  ghost predicate PageIndex(i: int, j: int) {
    0 <= i < SELF && 0 <= j < ENTRIES
  }

  /** What the kernel's own calls meet: pages outside slot 1023, the scratch page only below 2 GiB, only mapped
      pages are opened, and exits that the queue and memory survive. */
  ghost predicate Legal(s: System, e: Event) {
    match e
    case MapPage(i, j, phys) => PageIndex(i, j) && (i == AS.TEMP_DIR && j == AS.TEMP_TABLE ==> phys < TOP)
    case AllocPage(i, j) => PageIndex(i, j)
    case OpenPage(i, j) => PageIndex(i, j) && Walk(s.mem.spaces.ram, s.mem.spaces.active, i, j).Mapped?
    case ProcessExit(records) => CanExit(s.sched) && SafeExit(s, records)
    case _ => true
  }

  // ----- one step -----

  lemma HousedActive(limit: nat, s: System, dirs: set<int>)
    requires AS.MemoryInv(s.mem, limit) && Housed(s.sched.queue, dirs) && dirs <= s.mem.spaces.dirs
    requires InQueue(s.sched.queue, s.sched.pos)
    ensures CurrentDir(s.sched) in dirs && 0 < CurrentDir(s.sched) < limit
  {
    assert HasDirectory(s.sched.queue, dirs, s.sched.pos.p);
    AS.DirBlock(s.mem.spaces, s.mem.used, limit, CurrentDir(s.sched));
  }

  /** Activating the current process's directory: it maps itself and takes over the outgoing kernel half. */
  lemma ActivateKeeps(limit: nat, s: System)
    requires AS.MemoryInv(s.mem, limit) && AS.HasTable(s.mem.spaces, AS.TEMP_DIR) && Inv(s.sched)
    requires Housed(s.sched.queue, s.mem.spaces.dirs) && InQueue(s.sched.queue, s.sched.pos)
    ensures var t := Activated(limit, s);
            && SystemInv(limit, t) && t.mem.spaces.dirs == s.mem.spaces.dirs && t.mem.spaces.owner == s.mem.spaces.owner
            && AS.Keeps(s.mem.spaces, t.mem.spaces, {AS.TEMP_KEY}) && AS.SwitchEffect(s.mem.spaces, t.mem.spaces)
            && s.mem.spaces.committed - {AS.TEMP_KEY} <= t.mem.spaces.committed
            && t.mem.used == s.mem.used && t.mem.counter == s.mem.counter && t.sched == s.sched
  {
    HousedActive(limit, s, s.mem.spaces.dirs);
    AS.SwitchStep(s.mem, limit, CurrentDir(s.sched));
  }

  lemma TickStep(limit: nat, s: System, regs: Registers)
    requires SystemInv(limit, s)
    ensures SystemInv(limit, TickDone(limit, s, regs))
    ensures AS.Keeps(s.mem.spaces, TickDone(limit, s, regs).mem.spaces, {AS.TEMP_KEY})
    ensures TickDone(limit, s, regs).mem.spaces.dirs == s.mem.spaces.dirs
    ensures s.mem.spaces.committed - {AS.TEMP_KEY} <= TickDone(limit, s, regs).mem.spaces.committed
    ensures s.sched.queue != [] ==> AS.SwitchEffect(s.mem.spaces, TickDone(limit, s, regs).mem.spaces)
  {
    if s.sched.queue != [] {
      TickKeeps(s.sched, regs);
      HousedAfterTick(s.sched, regs, s.mem.spaces.dirs);
      ActivateKeeps(limit, s.(sched := Apply(s.sched, OnTick(regs))));
    }
  }

  lemma NewProcessStep(limit: nat, s: System, garbage: Registers)
    requires SystemInv(limit, s)
    ensures var t := ProcessDone(limit, s, garbage);
            SystemInv(limit, t) && AS.Keeps(s.mem.spaces, t.mem.spaces, {AS.TEMP_KEY})
            && s.mem.spaces.dirs <= t.mem.spaces.dirs
  {
    var pd := AS.NewBlock(s.mem, limit);
    AS.DirectoryStep(s.mem, limit);
    if pd != 0 {
      AddProcessKeeps(s.sched, pd, UserStart(garbage));
      HousedAfterAdd(s.sched, pd, UserStart(garbage), s.mem.spaces.dirs);
    }
  }

  lemma NewThreadStep(limit: nat, s: System, id: int, garbage: Registers)
    requires SystemInv(limit, s)
    ensures SystemInv(limit, Step(limit, s, NewThread(id, garbage)))
  {
    var i := FindId(s.sched.queue, id);
    if i < |s.sched.queue| {
      AddThreadKeeps(s.sched, i, UserStart(garbage));
      HousedAfterThread(s.sched, i, UserStart(garbage), s.mem.spaces.dirs);
    }
  }

  /** An exit that the queue survives keeps the system sound exactly when every block it frees may be freed.
      The next process's directory takes over the kernel half, as on a tick. */
  lemma ExitStep(limit: nat, s: System, records: seq<nat>)
    requires SystemInv(limit, s) && CanExit(s.sched)
    ensures SystemInv(limit, ExitDone(limit, s, records)) <==> SafeExit(s, records)
    ensures AS.Keeps(s.mem.spaces, ExitDone(limit, s, records).mem.spaces, {AS.TEMP_KEY})
    ensures ExitDone(limit, s, records).mem.spaces.dirs == s.mem.spaces.dirs - {CurrentDir(s.sched)}
    ensures AS.SwitchEffect(s.mem.spaces, ExitDone(limit, s, records).mem.spaces)
    ensures forall c :: c in s.mem.spaces.committed && c != AS.TEMP_KEY && c.space != CurrentDir(s.sched) ==>
                          c in ExitDone(limit, s, records).mem.spaces.committed
  {
    var pd, t := CurrentDir(s.sched), s.(sched := Exit(s.sched));
    ExitKeeps(s.sched);
    HousedAfterExit(s.sched, s.mem.spaces.dirs);
    HousedMore(t.sched.queue, s.mem.spaces.dirs - {pd}, s.mem.spaces.dirs);
    HousedActive(limit, s, s.mem.spaces.dirs);
    HousedActive(limit, t, s.mem.spaces.dirs - {pd});
    ActivateKeeps(limit, t);
    var u := Activated(limit, t);
    SameMayFree(s.mem.spaces, u.mem.spaces, pd, FreedAll(records));
    AS.ExitStep(u.mem, limit, pd, FreedAll(records));
    AS.TwoKeeps(s.mem.spaces, u.mem.spaces, ExitDone(limit, s, records).mem.spaces, {AS.TEMP_KEY}, {});
    if SafeExit(s, records) {
      forall k | 0 <= k < |records| ensures AS.MayFree(s.mem.spaces, pd, FreedAll(records)[k]) {
        assert AS.MayFree(s.mem.spaces, pd, FreedFor(records[k]));
      }
    } else {
      var k :| 0 <= k < |records| && !AS.MayFree(s.mem.spaces, pd, FreedFor(records[k]));
      assert !AS.MayFree(s.mem.spaces, pd, FreedAll(records)[k]);
    }
  }

  /** It gives back the blocks its records free and its directory, and nothing else. */
  lemma ExitFrees(limit: nat, s: System, records: seq<nat>)
    requires SystemInv(limit, s) && CanExit(s.sched)
    ensures ExitDone(limit, s, records).mem.used == s.mem.used - Blocks(FreedAll(records)) - {CurrentDir(s.sched)}
    ensures ExitDone(limit, s, records).mem.counter == (s.mem.counter - |records| - 1) % AS.PM.WRAP
  {
    var pd, t := CurrentDir(s.sched), s.(sched := Exit(s.sched));
    ExitKeeps(s.sched);
    HousedAfterExit(s.sched, s.mem.spaces.dirs);
    HousedMore(t.sched.queue, s.mem.spaces.dirs - {pd}, s.mem.spaces.dirs);
    ActivateKeeps(limit, t);
  }

  lemma SameMayFree(s: AS.Spaces, t: AS.Spaces, n: int, freed: seq<int>)
    requires s.owner == t.owner
    ensures forall k :: 0 <= k < |freed| ==> AS.MayFree(s, n, freed[k]) == AS.MayFree(t, n, freed[k])
  {
  }

  lemma StepKeeps(limit: nat, s: System, e: Event)
    requires SystemInv(limit, s) && Legal(s, e)
    ensures SystemInv(limit, Step(limit, s, e))
  {
    match e
    case MapPage(i, j, phys) => AS.MapStep(s.mem, limit, i, j, phys);
    case AllocPage(i, j) => AS.AllocStep(s.mem, limit, i, j);
    case OpenPage(i, j) => AS.OpenStep(s.mem.spaces, s.mem.used, limit, i, j);
    case TimerTick(regs) => TickStep(limit, s, regs);
    case NewProcess(garbage) => NewProcessStep(limit, s, garbage);
    case NewThread(id, garbage) => NewThreadStep(limit, s, id, garbage);
    case ProcessExit(records) => ExitStep(limit, s, records);
  }

  /** Boot leaves a sound system: memory as boot sets it up, with a table for the scratch page, and no process. */
  lemma BootSound(limit: nat, m: AS.Memory, ram: Ram, d: int, tables: map<int, int>, reserved: set<int>)
    requires AS.BootTables(ram, limit, d, tables, reserved, m.used) && 0 in m.used
    requires m.spaces == AS.Spaces(ram, d, {d}, AS.BootOwner(d, tables, reserved), {})
    requires AS.TEMP_DIR in tables || AS.NextBlock(m, limit) != 0
    ensures SystemInv(limit, System(AS.MapDone(m, limit, AS.TEMP_DIR, 1018, 0xB8), Sched([], Idle, false, 0)))
  {
    AS.BootSpace(ram, limit, d, tables, reserved, m.used);
    AS.MapStep(m, limit, AS.TEMP_DIR, 1018, 0xB8);
  }

  // ----- runs -----

  ghost predicate Reaches(limit: nat, s: System, events: seq<Event>, t: System)
    requires limit <= TOP
    decreases |events|
  {
    if events == [] then s == t else Legal(s, events[0]) && Reaches(limit, Step(limit, s, events[0]), events[1..], t)
  }

  /** In every reachable state the active directory is the current process's and maps itself in slot 1023, every
      queued process has a directory of its own, and directories, tables in force and committed pages have
      blocks of their own that are marked used. */
  lemma {:induction false} RunKeeps(limit: nat, s: System, events: seq<Event>, t: System)
    requires SystemInv(limit, s) && Reaches(limit, s, events, t)
    ensures SystemInv(limit, t) && SelfMapped(t.mem.spaces.ram, t.mem.spaces.active)
    decreases |events|
  {
    if events != [] {
      StepKeeps(limit, s, events[0]);
      RunKeeps(limit, Step(limit, s, events[0]), events[1..], t);
    }
  }

  /** The event may move page c: it maps it, or it uses the scratch page, or it ends c's address space. */
  ghost predicate Disturbs(s: System, e: Event, c: AS.Key) {
    match e
    case MapPage(i, j, _) => c == AS.KeyOf(s.mem.spaces.active, i, j)
    case AllocPage(_, _) => false
    case OpenPage(_, _) => false
    case TimerTick(_) => c == AS.TEMP_KEY
    case NewProcess(_) => c == AS.TEMP_KEY
    case NewThread(_, _) => false
    case ProcessExit(_) => c == AS.TEMP_KEY || (CanExit(s.sched) && c.space == CurrentDir(s.sched))
  }

  ghost predicate Undisturbed(limit: nat, s: System, events: seq<Event>, c: AS.Key)
    requires limit <= TOP
    decreases |events|
  {
    events == [] || (!Disturbs(s, events[0], c) && Undisturbed(limit, Step(limit, s, events[0]), events[1..], c))
  }

  /** A mapped page that an event does not disturb stays where it is. */
  lemma StepVisible(limit: nat, s: System, e: Event, c: AS.Key)
    requires SystemInv(limit, s) && Legal(s, e) && !Disturbs(s, e, c)
    requires AS.IsPage(s.mem.spaces, c) && AS.PageAt(s.mem.spaces, c).Mapped?
    ensures Stays(s, Step(limit, s, e), c)
  {
    match e
    case MapPage(i, j, phys) => AS.MapStep(s.mem, limit, i, j, phys);
    case AllocPage(i, j) => AllocVisible(limit, s, i, j, c);
    case OpenPage(i, j) => AS.OpenStep(s.mem.spaces, s.mem.used, limit, i, j);
    case TimerTick(regs) => TickStep(limit, s, regs);
    case NewProcess(garbage) => NewProcessStep(limit, s, garbage);
    case NewThread(id, garbage) => NewThreadStep(limit, s, id, garbage);
    case ProcessExit(records) => ExitStep(limit, s, records);
  }

  ghost predicate Stays(s: System, t: System, c: AS.Key) {
    AS.IsPage(t.mem.spaces, c) && AS.PageAt(t.mem.spaces, c) == AS.PageAt(s.mem.spaces, c)
  }

  lemma AllocVisible(limit: nat, s: System, i: int, j: int, c: AS.Key)
    requires SystemInv(limit, s) && PageIndex(i, j)
    requires AS.IsPage(s.mem.spaces, c) && AS.PageAt(s.mem.spaces, c).Mapped?
    ensures Stays(s, Step(limit, s, AllocPage(i, j)), c)
  {
    AS.AllocStep(s.mem, limit, i, j);
  }

  /** Along a run a mapped page that nothing disturbs keeps its translation. */
  lemma {:induction false} RunVisible(limit: nat, s: System, events: seq<Event>, t: System, c: AS.Key)
    requires SystemInv(limit, s) && Reaches(limit, s, events, t) && Undisturbed(limit, s, events, c)
    requires AS.IsPage(s.mem.spaces, c) && AS.PageAt(s.mem.spaces, c).Mapped?
    ensures AS.IsPage(t.mem.spaces, c) && AS.PageAt(t.mem.spaces, c) == AS.PageAt(s.mem.spaces, c)
    decreases |events|
  {
    if events != [] {
      StepKeeps(limit, s, events[0]);
      StepVisible(limit, s, events[0], c);
      RunVisible(limit, Step(limit, s, events[0]), events[1..], t, c);
    }
  }

  /** A kernel mapping made in one process's slice is there in all later slices, through ticks, new processes and
      exits, until the page is mapped again: any kernel page but the scratch page. */
  lemma {:induction false} KernelVisible(limit: nat, s: System, events: seq<Event>, t: System, c: AS.Key)
    requires SystemInv(limit, s) && Reaches(limit, s, events, t)
    requires AS.KERNEL_FIRST <= c.i && c != AS.TEMP_KEY
    requires AS.IsPage(s.mem.spaces, c) && AS.PageAt(s.mem.spaces, c).Mapped?
    requires forall e :: e in events && e.MapPage? ==> !(e.i == c.i && e.j == c.j)
    ensures AS.IsPage(t.mem.spaces, c) && AS.PageAt(t.mem.spaces, c) == AS.PageAt(s.mem.spaces, c)
    decreases |events|
  {
    if events != [] {
      assert events[0] in events;
      if CanExit(s.sched) { HousedActive(limit, s, s.mem.spaces.dirs); }
      StepKeeps(limit, s, events[0]);
      StepVisible(limit, s, events[0], c);
      KernelVisible(limit, Step(limit, s, events[0]), events[1..], t, c);
    }
  }

  // ----- what the records do to an exit -----

  /** An exiting process with a segment page in a block whose number is a multiple of 256 takes memory down:
      its record makes process_destroy free block 0. */
  lemma SegmentExitBreaks(limit: nat, s: System, records: seq<nat>, k: nat, f: nat)
    requires SystemInv(limit, s) && CanExit(s.sched)
    requires k < |records| && f < TOP && records[k] == PAGE_SIZE * f && f % 256 == 0
    ensures !SystemInv(limit, ExitDone(limit, s, records)) && 0 !in ExitDone(limit, s, records).mem.used
  {
    RecordFrees(f);
    assert !AS.MayFree(s.mem.spaces, CurrentDir(s.sched), FreedFor(records[k]));
    ExitStep(limit, s, records);
    ExitKeeps(s.sched);
    assert FreedAll(records)[k] in Blocks(FreedAll(records));
  }

  /** Block 0x200 is such a block. */
  lemma SegmentExitExample(limit: nat, s: System)
    requires SystemInv(limit, s) && CanExit(s.sched)
    ensures FreedFor(0x20_0000) == 0 && !SystemInv(limit, ExitDone(limit, s, [0x20_0000]))
  {
    SegmentExitBreaks(limit, s, [0x20_0000], 0, 0x200);
    RecordFrees(0x200);
  }

  /** Nor do small numbers do better: the record of block 1 frees block 0x1000, where the kernel itself is. */
  lemma SegmentExitKernel(limit: nat, s: System)
    requires SystemInv(limit, s) && CanExit(s.sched)
    requires 0x1000 in s.mem.spaces.owner && s.mem.spaces.owner[0x1000].Reserved?
    ensures FreedFor(0x1000) == 0x1000 && !SystemInv(limit, ExitDone(limit, s, [0x1000]))
  {
    FreedBlock(0x1000);
    assert !AS.MayFree(s.mem.spaces, CurrentDir(s.sched), FreedFor([0x1000][0]));
    ExitStep(limit, s, [0x1000]);
  }

  /** With thread records alone, block numbers of the process's own pages, every exit the queue survives is
      sound. */
  lemma StackExitSound(limit: nat, s: System, records: seq<nat>)
    requires SystemInv(limit, s) && CanExit(s.sched)
    requires forall k :: 0 <= k < |records| ==> OwnPage(s, records[k])
    ensures SystemInv(limit, ExitDone(limit, s, records))
  {
    forall k | 0 <= k < |records| ensures AS.MayFree(s.mem.spaces, CurrentDir(s.sched), FreedFor(records[k])) {
      assert OwnPage(s, records[k]);
      assert AS.BlockOk(s.mem.spaces, s.mem.used, limit, records[k]);
      RecordFrees(records[k]);
    }
    ExitStep(limit, s, records);
  }

  /** The block holds a page of the current process's address space. */
  ghost predicate OwnPage(s: System, f: nat)
    requires CanExit(s.sched)
  {
    f in s.mem.spaces.owner && s.mem.spaces.owner[f].Page? && s.mem.spaces.owner[f].key.space == CurrentDir(s.sched)
  }
}
