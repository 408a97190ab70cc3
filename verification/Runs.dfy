/**
 Whole runs of the address-space manager.  The machine with its capabilities, frames, page tables
 and indices refines a plain map from tasks to pages, call by call and over every run, and the page
 index agrees with the hardware in every state of every run.
 */
module Runs {
  import opened Base
  import opened Ordering
  import opened Machine
  import opened TaskSpace
  import opened AddressSpace
  import opened Mmap
  import opened CopyLoop
  import opened Clone
  import opened Elf
  import opened Stack
  import opened StackMapping

  datatype Call =
    | NewTask(id: nat)
    | PageFault(id: nat, addr: nat)
    | DoMmap(id: nat, addr: nat, length: nat, fixed: bool)
    | DoMunmap(id: nat, addr: nat, length: nat)
    | DoLoadElf(id: nat, elf: seq<byte>, segs: seq<Segment>)
    | DoMapStack(id: nat, entry: nat, start: nat, end: nat, args: seq<seq<byte>>)
    | DoClone(src: nat, id: nat)
    | DoWrite(id: nat, addr: nat, data: seq<byte>)

  /** What callers owe apart from the state of memory. */
  predicate WellFormed(c: Call) {
    match c
    case DoLoadElf(_, elf, segs) => ValidImage(elf, segs) && Congruent(segs)
    case DoMapStack(_, _, start, end, args) =>
      start % PAGE_SIZE == 0 && end % PAGE_SIZE == 0 && start < end && StackFits(args)
    case _ => true
  }

  // ------------------------------------------------------------------ the plain view

  type Memories = map<nat, Pages>

  ghost predicate Allowed(ms: Memories, c: Call)
    requires WellFormed(c)
  {
    match c
    case NewTask(id) => id !in ms
    case PageFault(id, addr) => id in ms && PageOf(addr) !in ms[id]
    case DoLoadElf(id, _, segs) => id in ms && Unoccupied(ms[id].Keys, segs)
    case DoMapStack(id, _, start, end, _) => id in ms && RangeFree(ms[id].Keys, start, end)
    case DoClone(src, id) => src in ms && id in ms && src != id && ms[id] == map[]
    case _ => c.id in ms
  }

  function MmapStartIn(mapped: set<nat>, addr: nat, length: nat, fixed: bool): nat {
    if fixed then addr else FreeAreaIn(mapped, addr, length)
  }

  /** What a call does to the memory of its task. */
  function NewPages(ms: Memories, c: Call): Pages
    requires WellFormed(c)
    requires !c.NewTask? ==> c.id in ms
    requires c.DoClone? ==> c.src in ms
  {
    match c
    case NewTask(_) => map[]
    case PageFault(id, addr) => ms[id][PageOf(addr) := ZeroPage()]
    case DoMmap(id, addr, length, fixed) =>
      ZeroPages(Cover(MmapStartIn(ms[id].Keys, addr, length, fixed), length)) + ms[id]
    case DoMunmap(id, addr, length) => ms[id] - Elements(Cover(addr, length))
    case DoLoadElf(id, elf, segs) => LoadImage(ms[id], elf, segs, |segs|)
    case DoMapStack(id, entry, start, end, args) => ms[id] + StackMemory(StackPages(start, end), end, entry, args)
    case DoClone(src, _) => ms[src]
    case DoWrite(id, addr, data) => WritePages(ms[id], addr, data)
  }

  /** The plain view of a call: one task's pages change, nothing else does. */
  ghost function SimpleCall(ms: Memories, c: Call): Memories
    requires WellFormed(c) && Allowed(ms, c)
  {
    ms[c.id := NewPages(ms, c)]
  }

  // ------------------------------------------------------------------ the machine's view

  function Plain(s: System): Memories {
    map i | i in s.tasks :: Memory(s.m, s.tasks[i])
  }

  /** What a call does to the machine and to its task. */
  function CallSpec(s: System, c: Call): (Machine, Task)
    requires WellFormed(c)
    requires !c.NewTask? ==> c.id in s.tasks
    requires c.DoClone? ==> c.src in s.tasks
  {
    match c
    case NewTask(_) => (s.m.(next := s.m.next + 3), Task(s.m.next, map[], []))
    case PageFault(id, addr) => Apply(s.m, s.tasks[id], Fresh(PageOf(addr), ZeroPage()))
    case DoMmap(id, addr, length, fixed) =>
      var t := s.tasks[id];
      ApplyAll(s.m, t, MapEffects(t.mappedPage.Keys, Cover(MmapStart(t, addr, length, fixed), length)))
    case DoMunmap(id, addr, length) =>
      ApplyAll(s.m, s.tasks[id], UnmapEffects(s.tasks[id].mappedPage.Keys, Cover(addr, length)))
    case DoLoadElf(id, elf, segs) => LoadElfSpec(s.m, s.tasks[id], elf, segs, |segs|)
    case DoMapStack(id, entry, start, end, args) =>
      ApplyAll(s.m, s.tasks[id], StackEffects(StackPages(start, end), end, entry, args))
    case DoClone(src, id) => CloneSpec(s.m, s.tasks[src], s.tasks[id], ClonedKeys(s.tasks[src]))
    case DoWrite(id, addr, data) => (WriteSpec(s.m, s.tasks[id], addr, data).0, s.tasks[id])
  }

  function Do(s: System, c: Call): System
    requires WellFormed(c)
    requires !c.NewTask? ==> c.id in s.tasks
    requires c.DoClone? ==> c.src in s.tasks
  {
    var (m, t) := CallSpec(s, c);
    System(m, s.tasks[c.id := t])
  }

  // ------------------------------------------------------------------ one call

  /** The outcome of a call on one task, in the machine's terms. */
  ghost predicate Refines(m: Machine, t: Task, m': Machine, t': Task, pages: Pages) {
    && MachineOk(m') && TaskOk(m', t') && t'.vspace == t.vspace && LocalTo(m, m', t.vspace)
    && Memory(m', t') == pages
  }

  lemma FaultRefines(m: Machine, t: Task, addr: nat)
    requires MachineOk(m) && TaskOk(m, t) && PageOf(addr) !in t.mappedPage
    ensures var (m', t') := Apply(m, t, Fresh(PageOf(addr), ZeroPage()));
            Refines(m, t, m', t', Memory(m, t)[PageOf(addr) := ZeroPage()])
  {
    hide MachineOk, TaskOk, LocalTo, Memory, Apply;
    MemoryPages(m, t);
    EffectOk(m, t, Fresh(PageOf(addr), ZeroPage()));
  }

  lemma MmapRefines(m: Machine, t: Task, addr: nat, length: nat, fixed: bool)
    requires MachineOk(m) && TaskOk(m, t)
    ensures var ps := Cover(MmapStart(t, addr, length, fixed), length);
            var (m', t') := ApplyAll(m, t, MapEffects(t.mappedPage.Keys, ps));
            Refines(m, t, m', t', ZeroPages(ps) + Memory(m, t))
  {
    var ps := Cover(MmapStart(t, addr, length, fixed), length);
    CoverAligned(MmapStart(t, addr, length, fixed), length);
    hide MachineOk, TaskOk, LocalTo, Memory, ApplyAll, AlignedPages, Cover;
    MapPrefix(m, t, ps);
  }

  lemma MunmapRefines(m: Machine, t: Task, addr: nat, length: nat)
    requires MachineOk(m) && TaskOk(m, t)
    ensures var (m', t') := ApplyAll(m, t, UnmapEffects(t.mappedPage.Keys, Cover(addr, length)));
            Refines(m, t, m', t', Memory(m, t) - Elements(Cover(addr, length)))
  {
    CoverAligned(addr, length);
    hide MachineOk, TaskOk, LocalTo, Memory, ApplyAll, AlignedPages, Cover;
    UnmapPrefix(m, t, Cover(addr, length));
  }

  lemma CloneRefines(m: Machine, src: Task, t: Task)
    requires ClonePre(m, src, t) && t.mappedPage == map[]
    ensures var (m', t') := CloneSpec(m, src, t, ClonedKeys(src)); Refines(m, t, m', t', Memory(m, src))
  {
    assert MachineOk(m) && TaskOk(m, t);
    hide ClonePre, MachineOk, TaskOk, LocalTo, Memory, ApplyAll, CloneEffects, ClonedKeys;
    CloneMemoryAll(m, src, t);
    EffectsOk(m, t, CloneEffects(Memory(m, src), ClonedKeys(src)));
  }

  lemma LoadRefines(m: Machine, t: Task, elf: seq<byte>, segs: seq<Segment>)
    requires MachineOk(m) && TaskOk(m, t) && ValidImage(elf, segs) && Congruent(segs)
    ensures var (m', t') := LoadElfSpec(m, t, elf, segs, |segs|);
            Refines(m, t, m', t', LoadImage(Memory(m, t), elf, segs, |segs|))
  {
    hide MachineOk, TaskOk, LocalTo, Memory, LoadElfSpec, LoadImage, ValidImage, Congruent;
    LoadElfSpecOk(m, t, elf, segs, |segs|);
  }

  lemma StackRefines(m: Machine, t: Task, entry: nat, start: nat, end: nat, args: seq<seq<byte>>)
    requires MachineOk(m) && TaskOk(m, t)
    requires start % PAGE_SIZE == 0 && end % PAGE_SIZE == 0 && start < end && StackFits(args)
    requires RangeFree(t.mappedPage.Keys, start, end)
    ensures var (m', t') := ApplyAll(m, t, StackEffects(StackPages(start, end), end, entry, args));
            Refines(m, t, m', t', Memory(m, t) + StackMemory(StackPages(start, end), end, entry, args))
  {
    StackPagesOk(start, end);
    StackPagesFree(t.mappedPage.Keys, start, end);
    hide MachineOk, TaskOk, LocalTo, Memory, ApplyAll, StackEffects, StackMemory, StackPages, StackFits, AlignedPages;
    StackMapped(m, t, StackPages(start, end), end, entry, args);
  }

  lemma WriteRefines(m: Machine, t: Task, addr: nat, data: seq<byte>)
    requires MachineOk(m) && TaskOk(m, t)
    ensures Refines(m, t, WriteSpec(m, t, addr, data).0, t, WritePages(Memory(m, t), addr, data))
  {
    hide MachineOk, TaskOk, LocalTo, Memory, WriteSpec, WritePages, Reach;
    WriteSpecOk(m, t, addr, data);
  }

  /** A call on an existing task does to that task's memory what the plain view says. */
  lemma CallRefines(s: System, c: Call)
    requires SystemOk(s) && WellFormed(c) && Allowed(Plain(s), c) && !c.NewTask?
    ensures var (m', t') := CallSpec(s, c);
            Refines(s.m, s.tasks[c.id], m', t', NewPages(Plain(s), c))
  {
    var t := s.tasks[c.id];
    hide SystemOk, MachineOk, TaskOk, LocalTo, Memory, Apply, ApplyAll, Refines, LoadImage, LoadElfSpec, WriteSpec,
         WritePages, StackEffects, StackMemory, StackPages, StackFits, CloneSpec, ClonedKeys, Unoccupied, ValidImage,
         Congruent, Cover,
         MapEffects, UnmapEffects, ZeroPages, Elements, FreeAreaIn;
    TaskInOrder(s, c.id);
    MemoryPages(s.m, t);
    match c
    case PageFault(_, addr) => FaultRefines(s.m, t, addr);
    case DoMmap(_, addr, length, fixed) => MmapRefines(s.m, t, addr, length, fixed);
    case DoMunmap(_, addr, length) => MunmapRefines(s.m, t, addr, length);
    case DoLoadElf(_, elf, segs) => LoadRefines(s.m, t, elf, segs);
    case DoMapStack(_, entry, start, end, args) => StackRefines(s.m, t, entry, start, end, args);
    case DoClone(src, id) =>
      assert t.mappedPage == map[] by { assert t.mappedPage.Keys == {}; }
      CloneAllowed(s, src, id);
      CloneRefines(s.m, s.tasks[src], t);
    case DoWrite(_, addr, data) => WriteRefines(s.m, t, addr, data);
  }

  lemma PlainUpdate(s: System, i: nat, m': Machine, t': Task)
    requires forall j :: j in s.tasks && j != i ==> Memory(m', s.tasks[j]) == Memory(s.m, s.tasks[j])
    ensures Plain(System(m', s.tasks[i := t'])) == Plain(s)[i := Memory(m', t')]
  {
    hide Memory;
  }

  /** Three slots taken for the new task's vspace, thread and capability node. */
  lemma NewSlotsOk(m: Machine)
    requires MachineOk(m)
    ensures var m' := m.(next := m.next + 3);
            MachineOk(m') && LocalTo(m, m', m.next) && TaskOk(m', Task(m.next, map[], []))
  {
    var m' := m.(next := m.next + 3);
    CompleteMonotone(m, m', INIT_VSPACE, m.seat);
    CompleteMonotone(m, m', INIT_VSPACE, m.ext);
  }

  lemma OlderVspace(m: Machine, t: Task)
    requires TaskOk(m, t)
    ensures t.vspace < m.next
  {
  }

  lemma OthersKept(s: System, m': Machine)
    requires SystemOk(s) && LocalTo(s.m, m', s.m.next)
    ensures forall j :: j in s.tasks ==> s.tasks[j].vspace < s.m.next && TaskOk(m', s.tasks[j])
    ensures forall j :: j in s.tasks ==> Memory(m', s.tasks[j]) == Memory(s.m, s.tasks[j])
  {
    hide MachineOk, TaskOk, Memory, LocalTo;
    forall j | j in s.tasks
      ensures s.tasks[j].vspace < s.m.next && TaskOk(m', s.tasks[j])
      ensures Memory(m', s.tasks[j]) == Memory(s.m, s.tasks[j])
    {
      OlderVspace(s.m, s.tasks[j]);
      LocalKeepsTask(s.m, m', s.m.next, s.tasks[j]);
    }
  }

  lemma MachineInOrder(s: System)
    requires SystemOk(s)
    ensures MachineOk(s.m)
  {
  }

  lemma NewTaskOk(s: System, id: nat)
    requires SystemOk(s) && id !in s.tasks
    ensures SystemOk(Do(s, NewTask(id))) && Plain(Do(s, NewTask(id))) == Plain(s)[id := map[]]
  {
    hide SystemOk, Plain, MachineOk, TaskOk, Memory, LocalTo;
    var m', t := s.m.(next := s.m.next + 3), Task(s.m.next, map[], []);
    MachineInOrder(s);
    NewSlotsOk(s.m);
    OthersKept(s, m');
    EmptyMemory(m', t);
    PlainUpdate(s, id, m', t);
    SystemAdded(s, id, m', t);
  }

  lemma SystemAdded(s: System, id: nat, m': Machine, t: Task)
    requires SystemOk(s) && id !in s.tasks && MachineOk(m') && TaskOk(m', t)
    requires forall j :: j in s.tasks ==> s.tasks[j].vspace < t.vspace && TaskOk(m', s.tasks[j])
    ensures SystemOk(System(m', s.tasks[id := t]))
  {
    hide MachineOk, TaskOk;
  }

  /** Every allowed call keeps the system in order and refines its plain view; no other task sees it. */
  lemma CallOk(s: System, c: Call)
    requires SystemOk(s) && WellFormed(c) && Allowed(Plain(s), c)
    ensures SystemOk(Do(s, c)) && Plain(Do(s, c)) == SimpleCall(Plain(s), c)
  {
    if c.NewTask? {
      hide SystemOk, Memory;
      NewTaskOk(s, c.id);
    } else {
      assert c.id in s.tasks && (c.DoClone? ==> c.src in s.tasks);
      hide SystemOk, CallSpec, NewPages, MachineOk, TaskOk, LocalTo, Memory, Allowed, WellFormed, Plain;
      CallRefines(s, c);
      var (m', t') := CallSpec(s, c);
      SystemKept(s, c.id, m', t');
      PlainUpdate(s, c.id, m', t');
    }
  }

  lemma ZeroedByte(pages: Pages, addr: nat, x: nat)
    ensures ByteAt(pages[PageOf(addr) := ZeroPage()], x) ==
            if addr / 4096 == x / 4096 then Some(0) else ByteAt(pages, x)
  {
  }

  /** After a page fault the faulting address can be read, every byte of its page is zero, no other byte changed. */
  lemma FaultFixes(s: System, id: nat, addr: nat, x: nat)
    requires SystemOk(s) && id in s.tasks && PageOf(addr) !in s.tasks[id].mappedPage
    ensures var s' := Do(s, PageFault(id, addr));
            id in s'.tasks && ByteAt(Memory(s'.m, s'.tasks[id]), x) ==
                              if addr / 4096 == x / 4096 then Some(0) else ByteAt(Memory(s.m, s.tasks[id]), x)
  {
    assert MachineOk(s.m) && TaskOk(s.m, s.tasks[id]);
    hide SystemOk, MachineOk, TaskOk, LocalTo, Memory, Apply, ByteAt;
    FaultRefines(s.m, s.tasks[id], addr);
    ZeroedByte(Memory(s.m, s.tasks[id]), addr, x);
  }

  // ------------------------------------------------------------------ runs

  ghost predicate AllAllowed(ms: Memories, cs: seq<Call>)
    decreases |cs|
  {
    cs == [] ||
    (WellFormed(cs[0]) && Allowed(ms, cs[0]) && AllAllowed(SimpleCall(ms, cs[0]), cs[1..]))
  }

  ghost function SimpleRun(ms: Memories, cs: seq<Call>): Memories
    requires AllAllowed(ms, cs)
    decreases |cs|
  {
    if cs == [] then ms else SimpleRun(SimpleCall(ms, cs[0]), cs[1..])
  }

  /** The machine runs the calls one after another. */
  ghost predicate RunsTo(s: System, cs: seq<Call>, s': System)
    decreases |cs|
  {
    if cs == [] then s' == s
    else
      && WellFormed(cs[0]) && (!cs[0].NewTask? ==> cs[0].id in s.tasks) && (cs[0].DoClone? ==> cs[0].src in s.tasks)
      && RunsTo(Do(s, cs[0]), cs[1..], s')
  }

  /** Over every run: the system stays in order and its memories are those of the plain run. */
  lemma {:induction false} RunOk(s: System, cs: seq<Call>, s': System)
    requires SystemOk(s) && AllAllowed(Plain(s), cs) && RunsTo(s, cs, s')
    ensures SystemOk(s') && Plain(s') == SimpleRun(Plain(s), cs)
    decreases |cs|
  {
    if cs != [] {
      hide SystemOk, Plain, Do, SimpleCall, WellFormed, Allowed;
      CallOk(s, cs[0]);
      RunOk(Do(s, cs[0]), cs[1..], s');
    }
  }

  /** In every state of every run the page index says exactly what the page tables say. */
  lemma IndexAgrees(s: System, cs: seq<Call>, s': System, i: nat, v: nat, c: nat)
    requires SystemOk(s) && AllAllowed(Plain(s), cs) && RunsTo(s, cs, s') && i in s'.tasks
    ensures var t := s'.tasks[i];
            (v in t.mappedPage && t.mappedPage[v] == c) <==>
            (Loc(t.vspace, v) in s'.m.entries && c in s'.m.caps && s'.m.entries[Loc(t.vspace, v)] == s'.m.caps[c].frame)
  {
    RunOk(s, cs, s');
    var t := s'.tasks[i];
    if v in t.mappedPage { assert PageOk(s'.m, t, v); }
  }

  /** In every state of every run no two addresses of any tasks share a frame. */
  lemma NoSharedFrames(s: System, cs: seq<Call>, s': System, i: nat, v: nat, j: nat, w: nat)
    requires SystemOk(s) && AllAllowed(Plain(s), cs) && RunsTo(s, cs, s') && i in s'.tasks && j in s'.tasks
    requires Loc(s'.tasks[i].vspace, v) in s'.m.entries && Loc(s'.tasks[j].vspace, w) in s'.m.entries
    requires s'.m.entries[Loc(s'.tasks[i].vspace, v)] == s'.m.entries[Loc(s'.tasks[j].vspace, w)]
    ensures i == j && v == w
  {
    RunOk(s, cs, s');
    FramesPrivate(s', i, v, j, w);
  }

  /** In every state of every run `mapped_pt` holds tables of the task's own vspace, each once and in one task. */
  lemma TablesPrivate(s: System, cs: seq<Call>, s': System, i: nat, a: nat, j: nat, b: nat)
    requires SystemOk(s) && AllAllowed(Plain(s), cs) && RunsTo(s, cs, s') && i in s'.tasks && j in s'.tasks
    requires a < |s'.tasks[i].mappedPt| && b < |s'.tasks[j].mappedPt|
    ensures OwnTable(s'.m, s'.tasks[i].vspace, s'.tasks[i].mappedPt[a])
    ensures s'.tasks[i].mappedPt[a] == s'.tasks[j].mappedPt[b] ==> i == j && a == b
  {
    RunOk(s, cs, s');
    assert TablesOwned(s'.m, s'.tasks[i]) && TablesOwned(s'.m, s'.tasks[j]);
    assert OwnTable(s'.m, s'.tasks[j].vspace, s'.tasks[j].mappedPt[b]);
    hide RunsTo, AllAllowed, MachineOk;
  }

  // ------------------------------------------------------------------ where runs start

  /** A machine with no frames and no tasks, whose two window pages have their tables. */
  function Boot(spans: Spans, seat: nat, ext: nat, next: nat): Machine {
    var m := Machine(spans, seat, ext, map[], map[], map[], {}, map[], next);
    Install(Install(m, INIT_VSPACE, seat), INIT_VSPACE, ext)
  }

  /** Such a machine is in order, for any translation levels and any two window pages. */
  lemma BootOk(spans: Spans, seat: nat, ext: nat, next: nat)
    requires seat % PAGE_SIZE == 0 && ext % PAGE_SIZE == 0 && seat != ext && INIT_VSPACE < next
    ensures SystemOk(System(Boot(spans, seat, ext, next), map[]))
  {
    var m := Machine(spans, seat, ext, map[], map[], map[], {}, map[], next);
    var m1 := Install(m, INIT_VSPACE, seat);
    var m2 := Install(m1, INIT_VSPACE, ext);
    hide Install, ChainComplete;
    InstallGrows(m, INIT_VSPACE, seat);
    InstallGrows(m1, INIT_VSPACE, ext);
    CompleteMonotone(m1, m2, INIT_VSPACE, seat);
  }
}
