/** Over whole runs, the mapped user pages of every queued process have been backed by vmmngr_alloc_page and allow
    writing: what the loader relies on when it fills a program or a stack. */
module UserPages {
  import opened Paging
  import opened Scheduling
  import opened SystemRuns
  import AS = AddressSpaces

  /** The directories whose user pages are all backed. */
  ghost function BackedDirs(s: AS.Spaces): set<int> {
    set d | d in s.dirs && AS.Backed(s, d)
  }

  /** Every queued process has such a directory. */
  ghost predicate AllBacked(s: System) {
    Housed(s.sched.queue, BackedDirs(s.mem.spaces))
  }

  /** Every caller of vmmngr_map_page maps a page of the kernel half; user pages come from vmmngr_alloc_page. */
  ghost predicate KernelMaps(e: Event) {
    e.MapPage? ==> AS.KERNEL_FIRST <= e.i
  }

  /** The user pages of d that are committed stay so, unless they are among those touched. */
  ghost predicate StaysCommitted(s: AS.Spaces, t: AS.Spaces, d: int, touched: set<AS.Key>) {
    forall c :: c in s.committed && c.space == d && c !in touched ==> c in t.committed
  }

  /** The user pages touched are committed in t and allow writing. */
  ghost predicate TouchedBacked(t: AS.Spaces, touched: set<AS.Key>) {
    forall c :: c in touched ==> c.i >= AS.KERNEL_FIRST || (c in t.committed && AS.LeafAt(t, c).writable)
  }

  /** A step that backs the user pages it touches keeps a directory backed. */
  lemma BackedOn(s: AS.Spaces, t: AS.Spaces, d: int, touched: set<AS.Key>)
    requires AS.Backed(s, d) && d in s.dirs && d in t.dirs && AS.Keeps(s, t, touched)
    requires StaysCommitted(s, t, d, touched) && TouchedBacked(t, touched) && AS.TablesKept(s, t)
    ensures AS.Backed(t, d)
  {
    forall i, j | 0 <= i < AS.KERNEL_FIRST && 0 <= j < ENTRIES ensures AS.PageBacked(t, d, i, j) {
      var c := AS.Key(d, i, j);
      assert AS.PageBacked(s, d, i, j) && AS.IsPage(s, c) && AS.IsPage(t, c);
      assert AS.TableWritable(s, d, i) && (c !in touched ==> AS.SameAt(s, t, c));
    }
    forall i | 0 <= i < AS.KERNEL_FIRST ensures AS.TableWritable(t, d, i) {
      assert AS.TableWritable(s, d, i) && AS.TableKept(s, t, d, i);
    }
  }

  lemma MoreBacked(s: AS.Spaces, t: AS.Spaces, dirs: set<int>, touched: set<AS.Key>)
    requires dirs <= s.dirs && dirs <= t.dirs && AS.Keeps(s, t, touched)
    requires forall d :: d in dirs ==> StaysCommitted(s, t, d, touched)
    requires TouchedBacked(t, touched) && AS.TablesKept(s, t)
    ensures BackedDirs(s) * dirs <= BackedDirs(t)
  {
    forall d | d in BackedDirs(s) * dirs ensures AS.Backed(t, d) { BackedOn(s, t, d, touched); }
  }

  /** A directory without tables has no page to back. */
  lemma EmptyBacked(s: AS.Spaces, d: int)
    requires forall i :: 0 <= i < AS.KERNEL_FIRST ==> !WordAt(s.ram, d, i).present
    ensures AS.Backed(s, d)
  {
    forall i, j | 0 <= i < AS.KERNEL_FIRST && 0 <= j < ENTRIES ensures AS.PageBacked(s, d, i, j) {
      assert !WordAt(s.ram, d, i).present;
    }
  }

  /** An event that changes memory alone and keeps the directories. */
  lemma MemoryBacked(s: System, m: AS.Memory, touched: set<AS.Key>)
    requires AllBacked(s) && m.spaces.dirs == s.mem.spaces.dirs && AS.Keeps(s.mem.spaces, m.spaces, touched)
    requires s.mem.spaces.committed - touched <= m.spaces.committed
    requires TouchedBacked(m.spaces, touched) && AS.TablesKept(s.mem.spaces, m.spaces)
    ensures AllBacked(s.(mem := m))
  {
    MoreBacked(s.mem.spaces, m.spaces, s.mem.spaces.dirs, touched);
    HousedMore(s.sched.queue, BackedDirs(s.mem.spaces), BackedDirs(m.spaces));
  }

  lemma MapBacked(limit: nat, s: System, i: int, j: int, phys: PageNumber)
    requires SystemInv(limit, s) && SystemRuns.Legal(s, MapPage(i, j, phys)) && AS.KERNEL_FIRST <= i && AllBacked(s)
    ensures AllBacked(Step(limit, s, MapPage(i, j, phys)))
  {
    AS.MapStep(s.mem, limit, i, j, phys);
    MemoryBacked(s, AS.MapDone(s.mem, limit, i, j, phys), {AS.KeyOf(s.mem.spaces.active, i, j)});
  }

  lemma AllocBacked(limit: nat, s: System, i: int, j: int)
    requires SystemInv(limit, s) && PageIndex(i, j) && AllBacked(s)
    ensures AllBacked(Step(limit, s, AllocPage(i, j)))
  {
    var m, c := AS.AllocDone(s.mem, limit, i, j), AS.KeyOf(s.mem.spaces.active, i, j);
    AS.AllocStep(s.mem, limit, i, j);
    if m != s.mem { MemoryBacked(s, m, if c in m.spaces.committed - s.mem.spaces.committed then {c} else {}); }
  }

  lemma OpenBacked(limit: nat, s: System, i: int, j: int)
    requires SystemInv(limit, s) && SystemRuns.Legal(s, OpenPage(i, j)) && AllBacked(s)
    ensures AllBacked(Step(limit, s, OpenPage(i, j)))
  {
    AS.OpenStep(s.mem.spaces, s.mem.used, limit, i, j);
    MemoryBacked(s, s.mem.(spaces := AS.OpenDone(s.mem.spaces, i, j)), {});
  }

  /** A switch changes no user entry of any directory. */
  lemma SwitchTables(s: AS.Spaces, t: AS.Spaces)
    requires AS.SwitchEffect(s, t)
    ensures AS.TablesKept(s, t)
  {
    forall d, i | d in s.dirs && d in t.dirs && 0 <= i < AS.KERNEL_FIRST ensures AS.TableKept(s, t, d, i) {}
  }

  lemma TickBacked(limit: nat, s: System, regs: Registers)
    requires SystemInv(limit, s) && AllBacked(s)
    ensures AllBacked(TickDone(limit, s, regs))
  {
    var t := TickDone(limit, s, regs);
    TickStep(limit, s, regs);
    if s.sched.queue != [] {
      HousedAfterTick(s.sched, regs, BackedDirs(s.mem.spaces));
      SwitchTables(s.mem.spaces, t.mem.spaces);
    }
    MemoryBacked(System(s.mem, t.sched), t.mem, {AS.TEMP_KEY});
  }

  lemma ProcessBacked(limit: nat, s: System, garbage: Registers)
    requires SystemInv(limit, s) && AllBacked(s)
    ensures AllBacked(ProcessDone(limit, s, garbage))
  {
    var pd, m := AS.NewBlock(s.mem, limit), AS.DirectoryDone(s.mem, limit);
    AS.DirectoryStep(s.mem, limit);
    if pd != 0 {
      EmptyBacked(m.spaces, pd);
      HousedAfterAdd(s.sched, pd, UserStart(garbage), BackedDirs(s.mem.spaces));
      MoreBacked(s.mem.spaces, m.spaces, s.mem.spaces.dirs, {AS.TEMP_KEY});
      HousedMore(ProcessDone(limit, s, garbage).sched.queue, BackedDirs(s.mem.spaces) + {pd}, BackedDirs(m.spaces));
    }
  }

  lemma ThreadBacked(limit: nat, s: System, id: int, garbage: Registers)
    requires SystemInv(limit, s) && AllBacked(s)
    ensures AllBacked(Step(limit, s, NewThread(id, garbage)))
  {
    var i := FindId(s.sched.queue, id);
    if i < |s.sched.queue| { HousedAfterThread(s.sched, i, UserStart(garbage), BackedDirs(s.mem.spaces)); }
  }

  lemma ExitBacked(limit: nat, s: System, records: seq<nat>)
    requires SystemInv(limit, s) && CanExit(s.sched) && AllBacked(s)
    ensures AllBacked(ExitDone(limit, s, records))
  {
    var t, pd := ExitDone(limit, s, records), CurrentDir(s.sched);
    ExitStep(limit, s, records);
    ExitKeeps(s.sched);
    HousedAfterExit(s.sched, BackedDirs(s.mem.spaces));
    SwitchTables(s.mem.spaces, t.mem.spaces);
    MoreBacked(s.mem.spaces, t.mem.spaces, t.mem.spaces.dirs, {AS.TEMP_KEY});
    HousedMore(t.sched.queue, BackedDirs(s.mem.spaces) - {pd}, BackedDirs(t.mem.spaces));
  }

  /** Every legal event of a kernel that maps no user page itself keeps the user pages of all processes backed. */
  lemma StepBacked(limit: nat, s: System, e: Event)
    requires SystemInv(limit, s) && SystemRuns.Legal(s, e) && KernelMaps(e) && AllBacked(s)
    ensures AllBacked(Step(limit, s, e))
  {
    match e
    case MapPage(i, j, phys) => MapBacked(limit, s, i, j, phys);
    case AllocPage(i, j) => AllocBacked(limit, s, i, j);
    case OpenPage(i, j) => OpenBacked(limit, s, i, j);
    case TimerTick(regs) => TickBacked(limit, s, regs);
    case NewProcess(garbage) => ProcessBacked(limit, s, garbage);
    case NewThread(id, garbage) => ThreadBacked(limit, s, id, garbage);
    case ProcessExit(records) => ExitBacked(limit, s, records);
  }

  /** And so does every run; one that starts without processes, as boot leaves the system, needs no more. In each
      reachable state the current process's user pages are backed, as the loader requires. */
  lemma {:induction false} RunBacked(limit: nat, s: System, events: seq<Event>, t: System)
    requires SystemInv(limit, s) && SystemRuns.Reaches(limit, s, events, t)
    requires s.sched.queue == [] || AllBacked(s)
    requires forall e :: e in events ==> KernelMaps(e)
    ensures AllBacked(t)
    ensures InQueue(t.sched.queue, t.sched.pos) ==> AS.Backed(t.mem.spaces, t.mem.spaces.active)
    decreases |events|
  {
    if events == [] {
      if InQueue(t.sched.queue, t.sched.pos) {
        RunKeeps(limit, s, events, t);
        assert HasDirectory(t.sched.queue, BackedDirs(t.mem.spaces), t.sched.pos.p);
      }
    } else {
      assert events[0] in events;
      StepKeeps(limit, s, events[0]);
      StepBacked(limit, s, events[0]);
      RunBacked(limit, Step(limit, s, events[0]), events[1..], t);
    }
  }
}
