/** The round-robin scheduler as a state machine over the queue of processes and their threads. */
module Scheduling {
  /** registers_t */
  datatype Registers = Registers(
    gs: int, fs: int, es: int, ds: int,
    edi: int, esi: int, ebp: int, esp: int, ebx: int, edx: int, ecx: int, eax: int,
    eip: int, cs: int, eflags: int, useresp: int, ss: int)

  /** A queued process: its id, its page directory, and the saved registers of its threads. */
  datatype Task = Task(id: int, pd: int, saved: seq<Registers>)

  /** The thread on the CPU, by process and thread number; nothing runs before the first tick. */
  datatype Position = Idle | At(p: int, t: int)

  /** `linked` says that previousProc is the queue's predecessor of the current process. */
  datatype Sched = Sched(queue: seq<Task>, pos: Position, linked: bool, counter: int)

  ghost predicate TaskOk(s: Sched, i: int)
    requires 0 <= i < |s.queue|
  {
    |s.queue[i].saved| > 0 && s.queue[i].id <= s.counter
  }

  /** Ids are handed out in rising order, so id order is insertion order. */
  ghost predicate Ordered(s: Sched, i: int, j: int)
    requires 0 <= i < |s.queue| && 0 <= j < |s.queue|
  {
    s.queue[i].id < s.queue[j].id
  }

  predicate InQueue(queue: seq<Task>, pos: Position) {
    pos.At? && 0 <= pos.p < |queue| && 0 <= pos.t < |queue[pos.p].saved|
  }

  ghost predicate Inv(s: Sched) {
    && (forall i :: 0 <= i < |s.queue| ==> TaskOk(s, i))
    && (forall i, j :: 0 <= i < j < |s.queue| ==> Ordered(s, i, j))
    && (s.pos.Idle? || InQueue(s.queue, s.pos))
  }

  // ----- a tick -----

  /** Where the scheduler goes from `pos`: next thread, else first thread of the next process, else the
      first thread of all. */
  function NextPos(queue: seq<Task>, pos: Position): Position
    requires 0 < |queue| && (pos.At? ==> 0 <= pos.p < |queue|)
  {
    if pos.Idle? then At(0, 0)
    else if pos.t + 1 < |queue[pos.p].saved| then At(pos.p, pos.t + 1)
    else if pos.p + 1 < |queue| then At(pos.p + 1, 0)
    else At(0, 0)
  }

  function Save(queue: seq<Task>, pos: Position, regs: Registers): seq<Task>
    requires pos.At? ==> 0 <= pos.p < |queue| && 0 <= pos.t < |queue[pos.p].saved|
  {
    if pos.Idle? then queue
    else queue[pos.p := queue[pos.p].(saved := queue[pos.p].saved[pos.t := regs])]
  }

  /** The switch crosses from one process to another, or wraps around. */
  function Crosses(queue: seq<Task>, pos: Position): bool
    requires pos.At? ==> 0 <= pos.p < |queue|
  {
    pos.At? && pos.t + 1 >= |queue[pos.p].saved|
  }

  function Tick(s: Sched, regs: Registers): Sched
    requires 0 < |s.queue| && (s.pos.Idle? || InQueue(s.queue, s.pos))
  {
    var queue := Save(s.queue, s.pos, regs);
    s.(queue := queue, pos := NextPos(queue, s.pos), linked := s.linked || Crosses(s.queue, s.pos))
  }

  /** The registers of the thread on the CPU. */
  function Loaded(s: Sched): Registers
    requires InQueue(s.queue, s.pos)
  {
    s.queue[s.pos.p].saved[s.pos.t]
  }

  lemma SaveKeeps(s: Sched, regs: Registers)
    requires Inv(s)
    ensures Inv(s.(queue := Save(s.queue, s.pos, regs)))
  {
    var t := s.(queue := Save(s.queue, s.pos, regs));
    forall i | 0 <= i < |t.queue| ensures TaskOk(t, i) { assert TaskOk(s, i); }
    forall i, j | 0 <= i < j < |t.queue| ensures Ordered(t, i, j) { assert Ordered(s, i, j); }
  }

  lemma TickKeeps(s: Sched, regs: Registers)
    requires Inv(s) && 0 < |s.queue|
    ensures var t := Tick(s, regs); Inv(t) && InQueue(t.queue, t.pos)
  {
    var t := Tick(s, regs);
    forall i | 0 <= i < |t.queue| ensures TaskOk(t, i) { assert TaskOk(s, i); }
    forall i, j | 0 <= i < j < |t.queue| ensures Ordered(t, i, j) { assert Ordered(s, i, j); }
    assert TaskOk(s, 0) && (s.pos.At? && s.pos.p + 1 < |s.queue| ==> TaskOk(s, s.pos.p + 1));
  }

  // ----- the flattened list of threads -----

  /** Number of threads of the first n processes. */
  function Threads(queue: seq<Task>, n: nat): nat
    requires n <= |queue|
  {
    if n == 0 then 0 else Threads(queue, n - 1) + |queue[n - 1].saved|
  }

  /** Number of a thread in the flattened list. */
  function Flat(queue: seq<Task>, pos: Position): int
    requires pos.At? && 0 <= pos.p <= |queue|
  {
    Threads(queue, pos.p) + pos.t
  }

  lemma {:induction false} ThreadsGrow(queue: seq<Task>, m: nat, n: nat)
    requires m <= n <= |queue|
    ensures Threads(queue, m) <= Threads(queue, n)
  {
    if m < n { ThreadsGrow(queue, m, n - 1); }
  }

  lemma FlatBound(queue: seq<Task>, pos: Position)
    requires InQueue(queue, pos)
    ensures 0 <= Flat(queue, pos) < Threads(queue, |queue|)
    ensures Threads(queue, pos.p + 1) <= Threads(queue, |queue|)
  {
    ThreadsGrow(queue, pos.p + 1, |queue|);
  }

  /** Different threads have different numbers. */
  lemma FlatInjective(queue: seq<Task>, a: Position, b: Position)
    requires InQueue(queue, a) && InQueue(queue, b) && Flat(queue, a) == Flat(queue, b)
    ensures a == b
  {
    if a.p < b.p { ThreadsGrow(queue, a.p + 1, b.p); }
    if b.p < a.p { ThreadsGrow(queue, b.p + 1, a.p); }
  }

  ghost predicate SameShape(a: seq<Task>, b: seq<Task>) {
    |a| == |b| && forall i :: 0 <= i < |a| ==> SameTask(a, b, i)
  }

  ghost predicate SameTask(a: seq<Task>, b: seq<Task>, i: int)
    requires |a| == |b| && 0 <= i < |a|
  {
    a[i].id == b[i].id && a[i].pd == b[i].pd && |a[i].saved| == |b[i].saved|
  }

  lemma {:induction false} SameThreads(a: seq<Task>, b: seq<Task>, n: nat)
    requires SameShape(a, b) && n <= |a|
    ensures Threads(a, n) == Threads(b, n)
  {
    if n > 0 { SameThreads(a, b, n - 1); assert SameTask(a, b, n - 1); }
  }

  /** k steps on from f around a cycle of n. */
  function Around(f: int, k: int, n: int): int {
    if f + k < n then f + k else f + k - n
  }

  /** A tick moves one step along the flattened list, around its end. */
  lemma TickIsCyclic(s: Sched, regs: Registers)
    requires Inv(s) && s.pos.At?
    ensures var t := Tick(s, regs);
            && SameShape(s.queue, t.queue) && InQueue(t.queue, t.pos)
            && Flat(t.queue, t.pos) == Around(Flat(s.queue, s.pos), 1, Threads(s.queue, |s.queue|))
  {
    var t := Tick(s, regs);
    TickKeeps(s, regs);
    forall i | 0 <= i < |s.queue| ensures SameTask(s.queue, t.queue, i) {}
    SameThreads(s.queue, t.queue, t.pos.p);
    NextFlat(s.queue, s.pos, t.queue);
  }

  lemma FlatSteps(queue: seq<Task>, pos: Position)
    requires InQueue(queue, pos)
    ensures Flat(queue, At(pos.p, pos.t + 1)) == Flat(queue, pos) + 1
    ensures pos.t + 1 == |queue[pos.p].saved| ==> Flat(queue, At(pos.p + 1, 0)) == Flat(queue, pos) + 1
    ensures Flat(queue, At(0, 0)) == 0
  {
  }

  lemma NextFlat(queue: seq<Task>, pos: Position, queue': seq<Task>)
    requires InQueue(queue, pos) && SameShape(queue, queue')
    requires InQueue(queue, NextPos(queue', pos))
    ensures Flat(queue, NextPos(queue', pos)) == Around(Flat(queue, pos), 1, Threads(queue, |queue|))
  {
    assert SameTask(queue, queue', pos.p);
    FlatSteps(queue, pos);
    FlatBound(queue, NextPos(queue', pos));
  }

  // ----- many ticks -----

  /** The state after one tick for each element of regs, which says what the CPU held at that tick. */
  ghost function Ticks(s: Sched, regs: seq<Registers>): (t: Sched)
    requires Inv(s) && 0 < |s.queue|
    ensures Inv(t) && 0 < |t.queue| && SameShape(s.queue, t.queue) && (s.pos.At? ==> InQueue(t.queue, t.pos))
    decreases |regs|
  {
    if regs == [] then assert forall i :: 0 <= i < |s.queue| ==> SameTask(s.queue, s.queue, i); s
    else
      var n := |regs| - 1;
      var m := Ticks(s, regs[..n]);
      TickKeeps(m, regs[n]);
      TickShape(s.queue, m, regs[n]);
      Tick(m, regs[n])
  }

  lemma TickShape(queue: seq<Task>, m: Sched, regs: Registers)
    requires Inv(m) && 0 < |m.queue| && SameShape(queue, m.queue)
    ensures SameShape(queue, Tick(m, regs).queue)
  {
    forall i | 0 <= i < |queue| ensures SameTask(queue, Tick(m, regs).queue, i) { assert SameTask(queue, m.queue, i); }
  }

  lemma {:induction false} TicksFlat(s: Sched, regs: seq<Registers>)
    requires Inv(s) && s.pos.At? && |regs| <= Threads(s.queue, |s.queue|)
    ensures var t := Ticks(s, regs);
            Flat(s.queue, t.pos) == Around(Flat(s.queue, s.pos), |regs|, Threads(s.queue, |s.queue|))
    decreases |regs|
  {
    FlatBound(s.queue, s.pos);
    if regs != [] {
      var n := |regs| - 1;
      TicksFlat(s, regs[..n]);
      var m := Ticks(s, regs[..n]);
      TickIsCyclic(m, regs[n]);
      SameThreads(s.queue, m.queue, |s.queue|);
      SameThreads(s.queue, m.queue, m.pos.p);
      SameThreads(s.queue, m.queue, Ticks(s, regs).pos.p);
      SameThreads(m.queue, Ticks(s, regs).queue, Ticks(s, regs).pos.p);
    }
  }

  lemma TicksAt(s: Sched, regs: seq<Registers>, k: int)
    requires Inv(s) && s.pos.At? && |regs| == Threads(s.queue, |s.queue|) && 0 <= k <= |regs|
    ensures var x := Ticks(s, regs[..k]).pos;
            InQueue(s.queue, x) && Flat(s.queue, x) == Around(Flat(s.queue, s.pos), k, |regs|)
  {
    TicksFlat(s, regs[..k]);
    PosIn(s, regs[..k]);
  }

  /** Round robin: with no process or thread added or removed, as many ticks as there are threads put
      every thread on the CPU ... */
  lemma EveryThreadRuns(s: Sched, regs: seq<Registers>, x: Position) returns (k: int)
    requires Inv(s) && s.pos.At? && |regs| == Threads(s.queue, |s.queue|) && InQueue(s.queue, x)
    ensures 1 <= k <= |regs| && Ticks(s, regs[..k]).pos == x
  {
    FlatBound(s.queue, s.pos);
    FlatBound(s.queue, x);
    var f, g := Flat(s.queue, s.pos), Flat(s.queue, x);
    k := if f < g then g - f else g + |regs| - f;
    TicksAt(s, regs, k);
    FlatInjective(s.queue, Ticks(s, regs[..k]).pos, x);
  }

  /** ... and none of them twice. */
  lemma NoThreadTwice(s: Sched, regs: seq<Registers>, k: int, l: int)
    requires Inv(s) && s.pos.At? && |regs| == Threads(s.queue, |s.queue|)
    requires 1 <= k <= |regs| && 1 <= l <= |regs| && Ticks(s, regs[..k]).pos == Ticks(s, regs[..l]).pos
    ensures k == l
  {
    FlatBound(s.queue, s.pos);
    TicksAt(s, regs, k);
    TicksAt(s, regs, l);
  }

  lemma PosIn(s: Sched, regs: seq<Registers>)
    requires Inv(s) && s.pos.At?
    ensures InQueue(s.queue, Ticks(s, regs).pos)
  {
    var t := Ticks(s, regs);
    assert SameTask(s.queue, t.queue, t.pos.p);
  }

  lemma {:induction false} KeptUntilBack(s: Sched, regs: seq<Registers>)
    requires Inv(s) && s.pos.At? && 1 <= |regs| <= Threads(s.queue, |s.queue|)
    ensures InQueue(Ticks(s, regs).queue, s.pos)
    ensures Ticks(s, regs).queue[s.pos.p].saved[s.pos.t] == regs[0]
    decreases |regs|
  {
    var n := |regs| - 1;
    var m := Ticks(s, regs[..n]);
    if n == 0 {
      assert regs[..n] == [];
    } else {
      KeptUntilBack(s, regs[..n]);
      TicksFlat(s, regs[..n]);
      FlatBound(s.queue, s.pos);
      assert m.pos != s.pos;
    }
  }

  /** A preempted thread comes back, one full round later, with exactly the registers it was preempted with,
      whatever ran in between. */
  lemma ResumesExactly(s: Sched, regs: seq<Registers>)
    requires Inv(s) && s.pos.At? && |regs| == Threads(s.queue, |s.queue|)
    ensures 0 < |regs|
    ensures var t := Ticks(s, regs); t.pos == s.pos && Loaded(t) == regs[0]
  {
    FlatBound(s.queue, s.pos);
    TicksFlat(s, regs);
    PosIn(s, regs);
    FlatInjective(s.queue, Ticks(s, regs).pos, s.pos);
    KeptUntilBack(s, regs);
  }

  // ----- processes and threads come and go -----

  /** The registers add_process and add_thread set, over whatever the allocated memory held. */
  function UserStart(garbage: Registers): Registers {
    garbage.(eip := 0xDEAD_BEEF, cs := 0x1B, eflags := 0x202,
    ds := 0x23, es := 0x23, fs := 0x23, gs := 0x23, ss := 0x23)
  }

  function AddProcess(s: Sched, pd: int, regs: Registers): Sched {
    s.(queue := s.queue + [Task(s.counter + 1, pd, [regs])], counter := s.counter + 1)
  }

  /** The number of the process with the given id, or the length of the queue. */
  function FindId(queue: seq<Task>, id: int, from: nat := 0): (i: nat)
    requires from <= |queue|
    ensures from <= i <= |queue| && (i < |queue| ==> queue[i].id == id)
    ensures forall k :: from <= k < i ==> queue[k].id != id
    decreases |queue| - from
  {
    if from == |queue| || queue[from].id == id then from else FindId(queue, id, from + 1)
  }

  function AddThread(s: Sched, id: int, regs: Registers): Sched {
    var i := FindId(s.queue, id);
    if i == |s.queue| then s else AddThreadTo(s, i, regs)
  }

  function AddThreadTo(s: Sched, i: int, regs: Registers): Sched
    requires 0 <= i < |s.queue|
  {
    s.(queue := s.queue[i := s.queue[i].(saved := s.queue[i].saved + [regs])])
  }

  /** The current process may exit soundly: it is not the head, this is its last thread, and previousProc
      is its predecessor. */
  predicate CanExit(s: Sched) {
    && InQueue(s.queue, s.pos)
    && 1 <= s.pos.p && s.pos.t + 1 == |s.queue[s.pos.p].saved| && s.linked
  }

  /** The sequence with element p taken out. */
  function Without<T>(s: seq<T>, p: int): (r: seq<T>)
    requires 0 <= p < |s|
    ensures |r| == |s| - 1
    ensures forall i :: 0 <= i < |r| ==> r[i] == s[if i < p then i else i + 1]
  {
    seq(|s| - 1, i requires 0 <= i < |s| - 1 => s[if i < p then i else i + 1])
  }

  function Exit(s: Sched): Sched
    requires CanExit(s)
  {
    var p := s.pos.p;
    var queue := Without(s.queue, p);
    s.(queue := queue, pos := At(if p < |queue| then p else 0, 0), linked := false)
  }

  datatype Call =
    | OnTick(regs: Registers)
    | OnAddProcess(pd: int, garbage: Registers)
    | OnAddThread(id: int, garbage: Registers)
    | OnExit

  predicate Legal(s: Sched, c: Call) {
    c.OnExit? ==> CanExit(s)
  }

  function Apply(s: Sched, c: Call): Sched {
    match c
    case OnTick(regs) => if 0 < |s.queue| && (s.pos.Idle? || InQueue(s.queue, s.pos)) then Tick(s, regs) else s
    case OnAddProcess(pd, garbage) => AddProcess(s, pd, UserStart(garbage))
    case OnAddThread(id, garbage) => AddThread(s, id, UserStart(garbage))
    case OnExit => if CanExit(s) then Exit(s) else s
  }

  lemma AddProcessKeeps(s: Sched, pd: int, regs: Registers)
    requires Inv(s)
    ensures Inv(AddProcess(s, pd, regs))
  {
    var t := AddProcess(s, pd, regs);
    forall i | 0 <= i < |t.queue| ensures TaskOk(t, i) { assert i < |s.queue| ==> TaskOk(s, i); }
    forall i, j | 0 <= i < j < |t.queue| ensures Ordered(t, i, j) {
      assert j < |s.queue| ==> Ordered(s, i, j);
      assert TaskOk(s, i);
    }
  }

  lemma AddThreadKeeps(s: Sched, i: int, regs: Registers)
    requires Inv(s) && 0 <= i < |s.queue|
    ensures Inv(AddThreadTo(s, i, regs))
  {
    var t := AddThreadTo(s, i, regs);
    forall i | 0 <= i < |t.queue| ensures TaskOk(t, i) { assert TaskOk(s, i); }
    forall i, j | 0 <= i < j < |t.queue| ensures Ordered(t, i, j) { assert Ordered(s, i, j); }
  }

  lemma ExitKeeps(s: Sched)
    requires Inv(s) && CanExit(s)
    ensures Inv(Exit(s)) && InQueue(Exit(s).queue, Exit(s).pos)
  {
    var t, p := Exit(s), s.pos.p;
    forall i | 0 <= i < |t.queue| ensures TaskOk(t, i) { assert TaskOk(s, if i < p then i else i + 1); }
    forall i, j | 0 <= i < j < |t.queue| ensures Ordered(t, i, j) {
      assert Ordered(s, if i < p then i else i + 1, if j < p then j else j + 1);
    }
    assert TaskOk(t, t.pos.p);
  }

  lemma ApplyKeeps(s: Sched, c: Call)
    requires Inv(s) && Legal(s, c)
    ensures Inv(Apply(s, c))
  {
    match c
    case OnTick(regs) => if 0 < |s.queue| { TickKeeps(s, regs); }
    case OnAddProcess(pd, garbage) => AddProcessKeeps(s, pd, UserStart(garbage));
    case OnAddThread(id, garbage) =>
      if FindId(s.queue, id) < |s.queue| { AddThreadKeeps(s, FindId(s.queue, id), UserStart(garbage)); }
    case OnExit => ExitKeeps(s);
  }

  ghost predicate Reaches(s: Sched, calls: seq<Call>, t: Sched)
    decreases |calls|
  {
    if calls == [] then s == t else Legal(s, calls[0]) && Reaches(Apply(s, calls[0]), calls[1..], t)
  }

  ghost function Ids(queue: seq<Task>): set<int> {
    set i | 0 <= i < |queue| :: queue[i].id
  }

  /** The ids of the processes added along a run. */
  ghost function Added(s: Sched, calls: seq<Call>): set<int>
    decreases |calls|
  {
    if calls == [] then {} else AddedBy(s, calls[0]) + Added(Apply(s, calls[0]), calls[1..])
  }

  ghost function AddedBy(s: Sched, c: Call): set<int> {
    if c.OnAddProcess? then {s.counter + 1} else {}
  }

  /** The ids of the processes that exit along a run. */
  ghost function Gone(s: Sched, calls: seq<Call>): set<int>
    decreases |calls|
  {
    if calls == [] then {} else GoneBy(s, calls[0]) + Gone(Apply(s, calls[0]), calls[1..])
  }

  ghost function GoneBy(s: Sched, c: Call): set<int> {
    if c.OnExit? && CanExit(s) then {s.queue[s.pos.p].id} else {}
  }

  lemma IdsAfter(s: Sched, c: Call)
    requires Inv(s) && Legal(s, c)
    ensures Ids(Apply(s, c).queue) == Ids(s.queue) + AddedBy(s, c) - GoneBy(s, c)
    ensures Apply(s, c).counter == s.counter + |AddedBy(s, c)|
  {
    var t := Apply(s, c);
    match c
    case OnTick(regs) => SameIds(s.queue, t.queue);
    case OnAddThread(id, garbage) => SameIds(s.queue, t.queue);
    case OnAddProcess(pd, garbage) =>
      assert t.queue[|s.queue|].id == s.counter + 1;
      forall i | 0 <= i < |s.queue| ensures s.queue[i].id in Ids(t.queue) { assert t.queue[i] == s.queue[i]; }
    case OnExit => ExitIds(s);
  }

  lemma SameIds(a: seq<Task>, b: seq<Task>)
    requires |a| == |b| && forall i :: 0 <= i < |a| ==> a[i].id == b[i].id
    ensures Ids(a) == Ids(b)
  {
    forall i | 0 <= i < |a| ensures a[i].id in Ids(b) && b[i].id in Ids(a) {}
  }

  lemma ExitIds(s: Sched)
    requires Inv(s) && CanExit(s)
    ensures Ids(Exit(s).queue) == Ids(s.queue) - {s.queue[s.pos.p].id}
  {
    var p, r := s.pos.p, Exit(s).queue;
    forall i | 0 <= i < |s.queue| && i != p ensures s.queue[i].id in Ids(r) && s.queue[i].id != s.queue[p].id {
      assert r[if i < p then i else i - 1] == s.queue[i];
      assert if i < p then Ordered(s, i, p) else Ordered(s, p, i);
    }
    forall k | 0 <= k < |r| ensures r[k].id in Ids(s.queue) && r[k].id != s.queue[p].id {
      var i := if k < p then k else k + 1;
      assert r[k] == s.queue[i];
      assert if i < p then Ordered(s, i, p) else Ordered(s, p, i);
    }
  }

  lemma {:induction false} AddedAbove(s: Sched, calls: seq<Call>)
    requires Inv(s) && exists t :: Reaches(s, calls, t)
    ensures forall x :: x in Added(s, calls) ==> x > s.counter
    decreases |calls|
  {
    if calls != [] {
      IdsAfter(s, calls[0]);
      ApplyKeeps(s, calls[0]);
      AddedAbove(Apply(s, calls[0]), calls[1..]);
    }
  }

  /** Over any run in which every exit is sound, the queue holds the processes it started with and those
      added since, less those that exited, in insertion order. */
  lemma {:induction false} QueueHistory(s: Sched, calls: seq<Call>, t: Sched)
    requires Inv(s) && Reaches(s, calls, t)
    ensures Inv(t)
    ensures Ids(t.queue) == Ids(s.queue) + Added(s, calls) - Gone(s, calls)
    decreases |calls|
  {
    if calls != [] {
      var c, m := calls[0], Apply(s, calls[0]);
      ApplyKeeps(s, c);
      QueueHistory(m, calls[1..], t);
      IdsAfter(s, c);
      AddedAbove(m, calls[1..]);
      GoneNotAdded(s, c, Added(m, calls[1..]));
    }
  }

  /** The process that exits is none of those added later. */
  lemma GoneNotAdded(s: Sched, c: Call, added: set<int>)
    requires Inv(s) && forall x :: x in added ==> x > s.counter
    ensures GoneBy(s, c) !! added
  {
    if c.OnExit? && CanExit(s) { assert TaskOk(s, s.pos.p); }
  }

  // ----- page directories of the queue -----

  ghost predicate HasDirectory(queue: seq<Task>, dirs: set<int>, i: int)
    requires 0 <= i < |queue|
  {
    queue[i].pd in dirs
  }

  ghost predicate OwnDirectory(queue: seq<Task>, i: int, j: int)
    requires 0 <= i < |queue| && 0 <= j < |queue|
  {
    queue[i].pd != queue[j].pd
  }

  /** Every queued process has a directory among `dirs`, and no two share one. */
  ghost predicate Housed(queue: seq<Task>, dirs: set<int>) {
    && (forall i :: 0 <= i < |queue| ==> HasDirectory(queue, dirs, i))
    && (forall i, j :: 0 <= i < j < |queue| ==> OwnDirectory(queue, i, j))
  }

  lemma HousedAfterTick(s: Sched, regs: Registers, dirs: set<int>)
    requires 0 < |s.queue| && (s.pos.Idle? || InQueue(s.queue, s.pos)) && Housed(s.queue, dirs)
    ensures Housed(Tick(s, regs).queue, dirs)
  {
    var t := Tick(s, regs);
    forall i | 0 <= i < |t.queue| ensures HasDirectory(t.queue, dirs, i) { assert HasDirectory(s.queue, dirs, i); }
    forall i, j | 0 <= i < j < |t.queue| ensures OwnDirectory(t.queue, i, j) { assert OwnDirectory(s.queue, i, j); }
  }

  lemma HousedAfterAdd(s: Sched, pd: int, regs: Registers, dirs: set<int>)
    requires Housed(s.queue, dirs) && pd !in dirs
    ensures Housed(AddProcess(s, pd, regs).queue, dirs + {pd})
  {
    var t := AddProcess(s, pd, regs);
    forall i | 0 <= i < |t.queue| ensures HasDirectory(t.queue, dirs + {pd}, i) {
      assert i < |s.queue| ==> HasDirectory(s.queue, dirs, i);
    }
    forall i, j | 0 <= i < j < |t.queue| ensures OwnDirectory(t.queue, i, j) {
      assert HasDirectory(s.queue, dirs, i);
      assert j < |s.queue| ==> OwnDirectory(s.queue, i, j);
    }
  }

  lemma HousedAfterThread(s: Sched, i: int, regs: Registers, dirs: set<int>)
    requires Housed(s.queue, dirs) && 0 <= i < |s.queue|
    ensures Housed(AddThreadTo(s, i, regs).queue, dirs)
  {
    var t := AddThreadTo(s, i, regs);
    forall k | 0 <= k < |t.queue| ensures HasDirectory(t.queue, dirs, k) { assert HasDirectory(s.queue, dirs, k); }
    forall k, l | 0 <= k < l < |t.queue| ensures OwnDirectory(t.queue, k, l) { assert OwnDirectory(s.queue, k, l); }
  }

  lemma HousedAfterExit(s: Sched, dirs: set<int>)
    requires CanExit(s) && Housed(s.queue, dirs)
    ensures Housed(Exit(s).queue, dirs - {s.queue[s.pos.p].pd})
  {
    var t, p, gone := Exit(s), s.pos.p, s.queue[s.pos.p].pd;
    forall i | 0 <= i < |t.queue| ensures HasDirectory(t.queue, dirs - {gone}, i) {
      var k := if i < p then i else i + 1;
      assert HasDirectory(s.queue, dirs, k);
      assert if k < p then OwnDirectory(s.queue, k, p) else OwnDirectory(s.queue, p, k);
    }
    forall i, j | 0 <= i < j < |t.queue| ensures OwnDirectory(t.queue, i, j) {
      assert OwnDirectory(s.queue, if i < p then i else i + 1, if j < p then j else j + 1);
    }
  }

  lemma HousedMore(queue: seq<Task>, dirs: set<int>, dirs': set<int>)
    requires Housed(queue, dirs) && dirs <= dirs'
    ensures Housed(queue, dirs')
    ensures forall i :: 0 <= i < |queue| ==> queue[i].pd in dirs
  {
    forall i | 0 <= i < |queue| ensures queue[i].pd in dirs && HasDirectory(queue, dirs', i)
    { assert HasDirectory(queue, dirs, i); }
  }
}
