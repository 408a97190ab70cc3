/**
 `load_elf`: segment after segment, page after page; a page that two segments share is unmapped,
 filled some more and mapped again.
 */
module Elf {
  import opened Base
  import opened Machine
  import opened TaskSpace
  import opened AddressSpace
  import opened Window
  import opened CopyLoop

  /** A loadable program header. */
  datatype Segment = Segment(offset: nat, vaddr: nat, filesz: nat, memsz: nat)

  /** The file bytes exist and fit the segment. */
  predicate ValidSegment(elf: seq<byte>, s: Segment) {
    s.filesz <= s.memsz && s.offset + s.filesz <= |elf|
  }

  predicate ValidImage(elf: seq<byte>, segs: seq<Segment>) {
    forall i :: 0 <= i < |segs| ==> ValidSegment(elf, segs[i])
  }

  /** File offset and address agree within the page where there are file bytes, as program headers promise. */
  predicate Congruent(segs: seq<Segment>) {
    forall i :: 0 <= i < |segs| && segs[i].filesz > 0 ==> segs[i].offset % PAGE_SIZE == segs[i].vaddr % PAGE_SIZE
  }

  // ------------------------------------------------------------------ what an image means

  /** The byte the first `n` segments put at `x`: from the last one whose file part covers it, else zero. */
  function ImageByte(elf: seq<byte>, segs: seq<Segment>, n: nat, x: nat): byte
    requires ValidImage(elf, segs) && n <= |segs|
    decreases n
  {
    if n == 0 then 0
    else
      var s := segs[n - 1];
      assert ValidSegment(elf, s);
      if s.vaddr <= x < s.vaddr + s.filesz then elf[s.offset + (x - s.vaddr)]
      else ImageByte(elf, segs, n - 1, x)
  }

  predicate InSegment(s: Segment, x: nat) {
    s.vaddr <= x < s.vaddr + s.memsz
  }

  // ------------------------------------------------------------------ one segment, on the simple memory

  /** What is left of a segment while it is loaded. */
  datatype Cursor = Cursor(vaddr: nat, vend: nat, offset: nat, end: nat)

  predicate CursorOk(elf: seq<byte>, c: Cursor) {
    && c.offset <= c.end <= |elf|
    && (c.offset < c.end ==> c.offset % PAGE_SIZE == c.vaddr % PAGE_SIZE)
    && c.vaddr + (c.end - c.offset) <= (if c.vaddr <= c.vend then c.vend else c.vaddr)
  }

  function Start(s: Segment): Cursor {
    Cursor(s.vaddr, s.vaddr + s.memsz, s.offset, s.offset + s.filesz)
  }

  /** Bytes copied in this turn. */
  function Copied(c: Cursor): nat
    requires c.offset <= c.end
  {
    ChunkLen(c.vaddr, c.end - c.offset)
  }

  function Advance(c: Cursor): Cursor
    requires c.offset <= c.end
  {
    c.(vaddr := c.vaddr + (PAGE_SIZE - c.vaddr % PAGE_SIZE), offset := c.offset + Copied(c))
  }

  lemma CursorFits(elf: seq<byte>, c: Cursor)
    requires CursorOk(elf, c)
    ensures c.offset % PAGE_SIZE + Copied(c) <= PAGE_SIZE
    ensures c.offset + Copied(c) <= |elf|
    ensures CursorOk(elf, Advance(c)) || c.vaddr >= c.vend
    ensures Advance(c).vaddr > c.vaddr
  {
  }

  function Data(elf: seq<byte>, c: Cursor): seq<byte>
    requires CursorOk(elf, c)
  {
    CursorFits(elf, c);
    elf[c.offset..c.offset + Copied(c)]
  }

  /** The page this turn leaves behind. */
  function Filled(pages: Pages, elf: seq<byte>, c: Cursor): Page
    requires CursorOk(elf, c)
  {
    CursorFits(elf, c);
    Splice(Contents(pages, PageOf(c.vaddr)), c.offset % PAGE_SIZE, Data(elf, c))
  }

  function LoadPages(pages: Pages, elf: seq<byte>, c: Cursor): Pages
    requires CursorOk(elf, c)
    decreases c.vend - c.vaddr
  {
    if c.vaddr >= c.vend then pages
    else
      CursorFits(elf, c);
      LoadPages(pages[PageOf(c.vaddr) := Filled(pages, elf, c)], elf, Advance(c))
  }

  /** One turn, byte by byte. */
  lemma FilledByte(pages: Pages, elf: seq<byte>, c: Cursor, x: nat)
    requires CursorOk(elf, c) && c.vaddr < c.vend
    ensures ByteOrZero(pages[PageOf(c.vaddr) := Filled(pages, elf, c)], x) ==
            if c.vaddr <= x < c.vaddr + Copied(c) then elf[c.offset + (x - c.vaddr)] else ByteOrZero(pages, x)
  {
    CursorFits(elf, c);
    if c.vaddr <= x < c.vaddr + Copied(c) { ChunkInPage(c.vaddr, c.end - c.offset, x); }
  }

  /** A turn that does not finish the file part ends at the page boundary, where the next turn starts. */
  lemma TurnsMeet(elf: seq<byte>, c: Cursor)
    requires CursorOk(elf, c)
    ensures Advance(c).offset == c.end || Advance(c).vaddr == c.vaddr + Copied(c)
  {
  }

  /** The segment's file bytes land at their addresses; no other byte changes. */
  lemma {:induction false} LoadPagesByte(pages: Pages, elf: seq<byte>, c: Cursor, x: nat)
    requires CursorOk(elf, c)
    ensures ByteOrZero(LoadPages(pages, elf, c), x) ==
            if c.vaddr <= x < c.vaddr + (c.end - c.offset) then elf[c.offset + (x - c.vaddr)] else ByteOrZero(pages, x)
    decreases c.vend - c.vaddr
  {
    if c.vaddr < c.vend {
      CursorFits(elf, c);
      FilledByte(pages, elf, c, x);
      TurnsMeet(elf, c);
      var pages1 := pages[PageOf(c.vaddr) := Filled(pages, elf, c)];
      hide Filled, ByteOrZero;
      LoadPagesByte(pages1, elf, Advance(c), x);
    }
  }

  /** The page starts from that of `a` up to `vend`. */
  predicate SpansPage(a: nat, vend: nat, v: nat) {
    v % PAGE_SIZE == 0 && PageOf(a) <= v < vend && a < vend
  }

  lemma SpanStep(a: nat, vend: nat, v: nat)
    requires a < vend
    ensures SpansPage(a, vend, v) <==> v == PageOf(a) || SpansPage(a + (PAGE_SIZE - a % PAGE_SIZE), vend, v)
  {
    var b := a + (PAGE_SIZE - a % PAGE_SIZE);
    assert b == PageOf(a) + PAGE_SIZE && PageOf(b) == b;
    if v % PAGE_SIZE == 0 && PageOf(a) < v { assert v >= PageOf(a) + PAGE_SIZE; }
  }

  /** Exactly the pages of the segment are added. */
  lemma {:induction false} LoadPagesKeys(pages: Pages, elf: seq<byte>, c: Cursor, v: nat)
    requires CursorOk(elf, c)
    ensures v in LoadPages(pages, elf, c) <==>
            v in pages || SpansPage(c.vaddr, c.vend, v)
    decreases c.vend - c.vaddr
  {
    if c.vaddr < c.vend {
      CursorFits(elf, c);
      var pages1 := pages[PageOf(c.vaddr) := Filled(pages, elf, c)];
      SpanStep(c.vaddr, c.vend, v);
      hide Filled, SpansPage;
      LoadPagesKeys(pages1, elf, Advance(c), v);
    }
  }

  // ------------------------------------------------------------------ the whole image, on the simple memory

  lemma StartOk(elf: seq<byte>, segs: seq<Segment>, i: nat)
    requires ValidImage(elf, segs) && Congruent(segs) && i < |segs|
    ensures CursorOk(elf, Start(segs[i]))
  {
    assert ValidSegment(elf, segs[i]);
  }

  /** The memory after the first `n` segments. */
  function LoadImage(pages: Pages, elf: seq<byte>, segs: seq<Segment>, n: nat): Pages
    requires ValidImage(elf, segs) && Congruent(segs) && n <= |segs|
    decreases n
  {
    if n == 0 then pages
    else
      StartOk(elf, segs, n - 1);
      LoadPages(LoadImage(pages, elf, segs, n - 1), elf, Start(segs[n - 1]))
  }

  /** On pages that were not there before, the loaded bytes are those of the image. */
  lemma {:induction false} LoadImageByte(pages: Pages, elf: seq<byte>, segs: seq<Segment>, n: nat, x: nat)
    requires ValidImage(elf, segs) && Congruent(segs) && n <= |segs| && PageOf(x) !in pages
    ensures ByteOrZero(LoadImage(pages, elf, segs, n), x) == ImageByte(elf, segs, n, x)
    decreases n
  {
    if n > 0 {
      hide ByteOrZero, LoadPages, ValidImage, Congruent;
      assert ValidSegment(elf, segs[n - 1]);
      StartOk(elf, segs, n - 1);
      LoadImageByte(pages, elf, segs, n - 1, x);
      LoadPagesByte(LoadImage(pages, elf, segs, n - 1), elf, Start(segs[n - 1]), x);
    }
  }

  predicate InImagePages(segs: seq<Segment>, n: nat, v: nat)
    requires n <= |segs|
  {
    exists i :: 0 <= i < n && SpansPage(segs[i].vaddr, segs[i].vaddr + segs[i].memsz, v)
  }

  lemma InImageStep(segs: seq<Segment>, n: nat, v: nat)
    requires 0 < n <= |segs|
    ensures InImagePages(segs, n, v) <==>
            InImagePages(segs, n - 1, v) || SpansPage(segs[n - 1].vaddr, segs[n - 1].vaddr + segs[n - 1].memsz, v)
  {
  }

  lemma {:induction false} LoadImageKeys(pages: Pages, elf: seq<byte>, segs: seq<Segment>, n: nat, v: nat)
    requires ValidImage(elf, segs) && Congruent(segs) && n <= |segs|
    ensures v in LoadImage(pages, elf, segs, n) <==> v in pages || InImagePages(segs, n, v)
    decreases n
  {
    if n > 0 {
      StartOk(elf, segs, n - 1);
      InImageStep(segs, n, v);
      hide LoadPages, SpansPage, InImagePages;
      LoadImageKeys(pages, elf, segs, n - 1, v);
      LoadPagesKeys(LoadImage(pages, elf, segs, n - 1), elf, Start(segs[n - 1]), v);
    }
  }

  /** Every address of every segment lies in a page of the image. */
  lemma SegmentInImage(segs: seq<Segment>, i: nat, x: nat)
    requires i < |segs| && InSegment(segs[i], x)
    ensures InImagePages(segs, |segs|, PageOf(x))
  {
    assert SpansPage(segs[i].vaddr, segs[i].vaddr + segs[i].memsz, PageOf(x));
  }

  // ------------------------------------------------------------------ on the machine

  /** One turn: a page already there is refilled, a missing one is new. */
  function LoadEffect(pages: Pages, elf: seq<byte>, c: Cursor): Effect
    requires CursorOk(elf, c)
  {
    var p := Filled(pages, elf, c);
    if PageOf(c.vaddr) in pages then Refill(PageOf(c.vaddr), p) else Fresh(PageOf(c.vaddr), p)
  }

  function LoadSpec(m: Machine, t: Task, elf: seq<byte>, c: Cursor): (Machine, Task)
    requires CursorOk(elf, c)
    decreases c.vend - c.vaddr
  {
    if c.vaddr >= c.vend then (m, t)
    else
      CursorFits(elf, c);
      var (m1, t1) := Apply(m, t, LoadEffect(Memory(m, t), elf, c));
      LoadSpec(m1, t1, elf, Advance(c))
  }

  lemma LoadTurnOk(m: Machine, t: Task, elf: seq<byte>, c: Cursor)
    requires MachineOk(m) && TaskOk(m, t) && CursorOk(elf, c)
    ensures var (m1, t1) := Apply(m, t, LoadEffect(Memory(m, t), elf, c));
            && MachineOk(m1) && TaskOk(m1, t1) && t1.vspace == t.vspace && LocalTo(m, m1, t.vspace)
            && Memory(m1, t1) == Memory(m, t)[PageOf(c.vaddr) := Filled(Memory(m, t), elf, c)]
  {
    hide MachineOk, TaskOk, LocalTo, Memory, Apply, Filled;
    EffectOk(m, t, LoadEffect(Memory(m, t), elf, c));
  }

  /** Loading a segment on the machine refines loading it into the simple memory. */
  lemma {:induction false} LoadSpecOk(m: Machine, t: Task, elf: seq<byte>, c: Cursor)
    requires MachineOk(m) && TaskOk(m, t) && CursorOk(elf, c)
    ensures var (m', t') := LoadSpec(m, t, elf, c);
            && MachineOk(m') && TaskOk(m', t') && t'.vspace == t.vspace && LocalTo(m, m', t.vspace)
            && Memory(m', t') == LoadPages(Memory(m, t), elf, c)
    decreases c.vend - c.vaddr
  {
    hide MachineOk, TaskOk, LocalTo, Memory, Apply, Filled;
    LocalReflexive(m, t.vspace);
    if c.vaddr < c.vend {
      CursorFits(elf, c);
      LoadTurnOk(m, t, elf, c);
      var (m1, t1) := Apply(m, t, LoadEffect(Memory(m, t), elf, c));
      LoadSpecOk(m1, t1, elf, Advance(c));
      LocalTransitive(m, m1, LoadSpec(m1, t1, elf, Advance(c)).0, t.vspace);
    }
  }

  function LoadElfSpec(m: Machine, t: Task, elf: seq<byte>, segs: seq<Segment>, n: nat): (Machine, Task)
    requires ValidImage(elf, segs) && Congruent(segs) && n <= |segs|
    decreases n
  {
    if n == 0 then (m, t)
    else
      StartOk(elf, segs, n - 1);
      var (m1, t1) := LoadElfSpec(m, t, elf, segs, n - 1);
      LoadSpec(m1, t1, elf, Start(segs[n - 1]))
  }

  lemma {:induction false} LoadElfSpecOk(m: Machine, t: Task, elf: seq<byte>, segs: seq<Segment>, n: nat)
    requires MachineOk(m) && TaskOk(m, t) && ValidImage(elf, segs) && Congruent(segs) && n <= |segs|
    ensures var (m', t') := LoadElfSpec(m, t, elf, segs, n);
            && MachineOk(m') && TaskOk(m', t') && t'.vspace == t.vspace && LocalTo(m, m', t.vspace)
            && Memory(m', t') == LoadImage(Memory(m, t), elf, segs, n)
    decreases n
  {
    hide MachineOk, TaskOk, LocalTo, Memory, LoadSpec, LoadPages;
    LocalReflexive(m, t.vspace);
    if n > 0 {
      StartOk(elf, segs, n - 1);
      LoadElfSpecOk(m, t, elf, segs, n - 1);
      var (m1, t1) := LoadElfSpec(m, t, elf, segs, n - 1);
      LoadSpecOk(m1, t1, elf, Start(segs[n - 1]));
      LocalTransitive(m, m1, LoadElfSpec(m, t, elf, segs, n).0, t.vspace);
    }
  }

  // ------------------------------------------------------------------ one turn of the loop

  lemma PokeNothing(m: Machine, f: nat, off: nat)
    requires f in m.frames && off <= PAGE_SIZE
    ensures Poke(m, f, off, []) == m
  {
    assert Splice(m.frames[f], off, []) == m.frames[f];
    assert m.frames[f := m.frames[f]] == m.frames;
  }

  /** A new frame, filled while it is not yet mapped, then mapped. */
  lemma FreshTurn(m: Machine, t: Task, p: nat, off: nat, data: seq<byte>)
    requires MachineOk(m) && TaskOk(m, t) && p % PAGE_SIZE == 0 && p !in t.mappedPage && off + |data| <= PAGE_SIZE
    ensures MachineOk(AllocFrame(m)) && Loose(AllocFrame(m), m.next)
    ensures var m2 := Poke(AllocFrame(m), m.next, off, data);
            && m2 == AddFrame(m, Splice(ZeroPage(), off, data))
            && Mappable(m2, t, p, m.next)
            && MapPageSpec(m2, t, p, m.next) == Apply(m, t, Fresh(p, Splice(ZeroPage(), off, data)))
  {
    AddFrameOk(m, ZeroPage());
    assert m.frames[m.next := ZeroPage()][m.next := Splice(ZeroPage(), off, data)] ==
           m.frames[m.next := Splice(ZeroPage(), off, data)];
  }

  lemma AddFrameOk(m: Machine, p: Page)
    requires MachineOk(m)
    ensures MachineOk(AddFrame(m, p))
  {
    CompleteMonotone(m, AddFrame(m, p), INIT_VSPACE, m.seat);
    CompleteMonotone(m, AddFrame(m, p), INIT_VSPACE, m.ext);
  }

  /** Mapping a frame again where it was needs no tables and restores what unmapping removed. */
  lemma Remap(m: Machine, t: Task, p: nat, m2: Machine)
    requires MachineOk(m) && TaskOk(m, t) && p in t.mappedPage
    requires m2 == m.(frames := m2.frames, entries := m.entries - {Loc(t.vspace, p)},
                      caps := m.caps[t.mappedPage[p] := FrameCap(t.mappedPage[p], None)])
    ensures Mappable(m2, t, p, t.mappedPage[p])
    ensures MapPageSpec(m2, t, p, t.mappedPage[p]) == (m.(frames := m2.frames), t)
  {
    var cap := t.mappedPage[p];
    assert PageOk(m, t, p);
    CompleteMonotone(m, m2, t.vspace, p);
    assert Install(m2, t.vspace, p) == m2;
    assert m2.entries[Loc(t.vspace, p) := cap] == m.entries;
    assert m2.caps[cap := FrameCap(cap, Some(Loc(t.vspace, p)))] == m.caps;
    assert t.mappedPage[p := cap] == t.mappedPage;
    assert t.mappedPt + Slots(m2.next, m2.next) == t.mappedPt;
  }

  /** A mapped frame, unmapped, filled and mapped again: only its contents have changed. */
  lemma RefillTurn(m: Machine, t: Task, p: nat, off: nat, data: seq<byte>)
    requires MachineOk(m) && TaskOk(m, t) && p in t.mappedPage && off + |data| <= PAGE_SIZE
    ensures var cap := t.mappedPage[p];
            && cap in m.caps && cap in m.frames
            && var m1 := Leave(m, cap);
            && MachineOk(m1) && Loose(m1, cap)
            && var m2 := Poke(m1, cap, off, data);
            && Mappable(m2, t, p, cap)
            && MapPageSpec(m2, t, p, cap) == Apply(m, t, Refill(p, Splice(m.frames[cap], off, data)))
  {
    var cap := t.mappedPage[p];
    PageOfTask(m, t, p);
    DiscardMachine(m, t, p);
    hide MachineOk, TaskOk, LocalTo, PageOk, Mappable, MapPageSpec, Splice;
    var m1 := Leave(m, cap);
    DiscardMachineOk(m, t, p, m1);
    Remap(m, t, p, Poke(m1, cap, off, data));
  }

  /** The loader's own index of the pages it has mapped so far. */
  ghost predicate IndexOf(loaded: map<nat, nat>, before: set<nat>, t: Task) {
    && (forall p :: p in loaded <==> p in t.mappedPage && p !in before)
    && (forall p :: p in loaded ==> loaded[p] == t.mappedPage[p])
  }

  /** What the frame a turn works on must be ready for. */
  ghost predicate Ready(m: Machine, t: Task, cap: nat, elf: seq<byte>, c: Cursor, m0: Machine)
    requires CursorOk(elf, c)
  {
    CursorFits(elf, c);
    && MachineOk(m) && Loose(m, cap) && cap in m.frames
    && var m2 := Poke(m, cap, c.offset % PAGE_SIZE, Data(elf, c));
    && Mappable(m2, t, PageOf(c.vaddr), cap)
    && MapPageSpec(m2, t, PageOf(c.vaddr), cap) == Apply(m0, t, LoadEffect(Memory(m0, t), elf, c))
  }

  /** A page loaded earlier is unmapped and used again; otherwise a new frame is allocated. */
  method AcquireFrame(k: Kernel, task: Sel4Task, loaded: map<nat, nat>, ghost elf: seq<byte>, c: Cursor)
    returns (cap: nat)
    requires MachineOk(k.m) && TaskOk(k.m, task.View()) && CursorOk(elf, c)
    requires PageOf(c.vaddr) in loaded <==> PageOf(c.vaddr) in task.mappedPage
    requires PageOf(c.vaddr) in loaded ==> loaded[PageOf(c.vaddr)] == task.mappedPage[PageOf(c.vaddr)]
    modifies k
    ensures Ready(k.m, task.View(), cap, elf, c, old(k.m))
    ensures PageOf(c.vaddr) in loaded ==> cap == loaded[PageOf(c.vaddr)]
  {
    var p := PageOf(c.vaddr);
    CursorFits(elf, c);
    MemoryPages(k.m, task.View());
    if p in loaded {
      RefillTurn(k.m, task.View(), p, c.offset % PAGE_SIZE, Data(elf, c));
      PageOfTask(k.m, task.View(), p);
      hide MachineOk, TaskOk, Memory, Apply, MapPageSpec, Poke, Leave, Mappable, Splice;
      cap := loaded[p];
      var (m1, unmapped) := FrameUnmap(k.m, cap);
      assert unmapped == Ok;
      k.m := m1;
    } else {
      FreshTurn(k.m, task.View(), p, c.offset % PAGE_SIZE, Data(elf, c));
      hide MachineOk, TaskOk, Memory, Apply, MapPageSpec, Poke, Mappable, Splice;
      cap := k.m.next;
      k.m := AllocFrame(k.m);
    }
  }

  /** Copy this turn's file bytes, if any are left, then map the frame. */
  method FillAndMap(k: Kernel, task: Sel4Task, cap: nat, elf: seq<byte>, c: Cursor, ghost m0: Machine)
    requires CursorOk(elf, c) && Ready(k.m, task.View(), cap, elf, c, m0)
    modifies k, task
    ensures (k.m, task.View()) == Apply(m0, old(task.View()), LoadEffect(Memory(m0, old(task.View())), elf, c))
    ensures task.mappedPage == old(task.mappedPage)[PageOf(c.vaddr) := cap]
  {
    hide MachineOk;
    CursorFits(elf, c);
    if c.offset < c.end {
      FillFrame(k, cap, c.offset % PAGE_SIZE, elf[c.offset..c.offset + Copied(c)]);
    } else {
      PokeNothing(k.m, cap, c.offset % PAGE_SIZE);
    }
    task.MapPage(k, PageOf(c.vaddr), cap);
  }

  method LoadTurn(k: Kernel, task: Sel4Task, loaded: map<nat, nat>, ghost before: set<nat>, elf: seq<byte>, c: Cursor)
    returns (loaded': map<nat, nat>)
    requires MachineOk(k.m) && TaskOk(k.m, task.View()) && CursorOk(elf, c)
    requires IndexOf(loaded, before, task.View()) && PageOf(c.vaddr) !in before
    modifies k, task
    ensures (k.m, task.View()) ==
            Apply(old(k.m), old(task.View()), LoadEffect(Memory(old(k.m), old(task.View())), elf, c))
    ensures IndexOf(loaded', before, task.View())
  {
    hide MachineOk, TaskOk, CursorOk, Memory, Apply, LoadEffect, Ready;
    var p := PageOf(c.vaddr);
    ghost var m0 := k.m;
    var cap := AcquireFrame(k, task, loaded, elf, c);
    loaded' := loaded - {p};
    FillAndMap(k, task, cap, elf, c, m0);
    loaded' := loaded'[p := cap];
  }

  /** The pages the cursor has still to visit were not mapped before the load. */
  ghost predicate Clear(before: set<nat>, c: Cursor) {
    forall v :: v in before ==> !SpansPage(c.vaddr, c.vend, v)
  }

  lemma ClearTurn(before: set<nat>, c: Cursor)
    requires Clear(before, c) && c.vaddr < c.vend && c.offset <= c.end
    ensures PageOf(c.vaddr) !in before && Clear(before, Advance(c))
  {
    forall v | v in before || v == PageOf(c.vaddr) ensures !SpansPage(Advance(c).vaddr, c.vend, v) || v !in before {
      SpanStep(c.vaddr, c.vend, v);
    }
    SpanStep(c.vaddr, c.vend, PageOf(c.vaddr));
  }

  method LoadSegment(k: Kernel, task: Sel4Task, loaded: map<nat, nat>, ghost before: set<nat>,
                     elf: seq<byte>, s: Segment)
    returns (loaded': map<nat, nat>)
    requires MachineOk(k.m) && TaskOk(k.m, task.View()) && CursorOk(elf, Start(s))
    requires IndexOf(loaded, before, task.View()) && Clear(before, Start(s))
    modifies k, task
    ensures (k.m, task.View()) == LoadSpec(old(k.m), old(task.View()), elf, Start(s))
    ensures IndexOf(loaded', before, task.View())
  {
    var c := Start(s);
    loaded' := loaded;
    hide MachineOk, TaskOk, CursorOk, Memory, Apply, LoadEffect, IndexOf, Clear, Copied, LocalTo, Filled;
    while c.vaddr < c.vend
      invariant MachineOk(k.m) && TaskOk(k.m, task.View()) && CursorOk(elf, c)
      invariant IndexOf(loaded', before, task.View()) && Clear(before, c)
      invariant LoadSpec(k.m, task.View(), elf, c) == LoadSpec(old(k.m), old(task.View()), elf, Start(s))
      decreases c.vend - c.vaddr
    {
      CursorFits(elf, c);
      CursorInFile(elf, c);
      ClearTurn(before, c);
      LoadTurnOk(k.m, task.View(), elf, c);
      loaded' := LoadTurn(k, task, loaded', before, elf, c);
      c := Advance(c);
    }
  }

  lemma CursorInFile(elf: seq<byte>, c: Cursor)
    requires CursorOk(elf, c)
    ensures c.offset <= c.end
  {
  }

  /** No page of the image is mapped yet. */
  ghost predicate Unoccupied(mapped: set<nat>, segs: seq<Segment>) {
    forall v :: v in mapped ==> !InImagePages(segs, |segs|, v)
  }

  lemma UnoccupiedSegment(mapped: set<nat>, segs: seq<Segment>, i: nat)
    requires Unoccupied(mapped, segs) && i < |segs|
    ensures Clear(mapped, Start(segs[i]))
  {
    forall v | v in mapped ensures !SpansPage(segs[i].vaddr, segs[i].vaddr + segs[i].memsz, v) {
      assert !InImagePages(segs, |segs|, v);
    }
  }

  method LoadElf(k: Kernel, task: Sel4Task, elf: seq<byte>, segs: seq<Segment>)
    requires MachineOk(k.m) && TaskOk(k.m, task.View())
    requires ValidImage(elf, segs) && Congruent(segs) && Unoccupied(task.mappedPage.Keys, segs)
    modifies k, task
    ensures (k.m, task.View()) == LoadElfSpec(old(k.m), old(task.View()), elf, segs, |segs|)
  {
    ghost var m0, t0 := k.m, task.View();
    ghost var before := t0.mappedPage.Keys;
    var loaded: map<nat, nat> := map[];
    assert IndexOf(loaded, before, task.View());
    hide MachineOk, TaskOk, CursorOk, Memory, LoadSpec, IndexOf, LocalTo, Unoccupied, LoadImage, ValidImage,
         Congruent, Start;
    for i := 0 to |segs|
      invariant IndexOf(loaded, before, task.View())
      invariant (k.m, task.View()) == LoadElfSpec(m0, t0, elf, segs, i)
    {
      StartOk(elf, segs, i);
      LoadElfSpecOk(m0, t0, elf, segs, i);
      UnoccupiedSegment(before, segs, i);
      loaded := LoadSegment(k, task, loaded, before, elf, segs[i]);
    }
  }

  /** Pages outside the image keep their bytes. */
  lemma {:induction false} LoadImageOutside(pages: Pages, elf: seq<byte>, segs: seq<Segment>, n: nat, x: nat)
    requires ValidImage(elf, segs) && Congruent(segs) && n <= |segs| && !InImagePages(segs, |segs|, PageOf(x))
    ensures ByteOrZero(LoadImage(pages, elf, segs, n), x) == ByteOrZero(pages, x)
    decreases n
  {
    if n > 0 {
      StartOk(elf, segs, n - 1);
      LoadImageOutside(pages, elf, segs, n - 1, x);
      assert ValidSegment(elf, segs[n - 1]);
      assert !InSegment(segs[n - 1], x) by {
        if InSegment(segs[n - 1], x) { SegmentInImage(segs, n - 1, x); }
      }
      hide ByteOrZero, LoadPages;
      LoadPagesByte(LoadImage(pages, elf, segs, n - 1), elf, Start(segs[n - 1]), x);
    }
  }

  /** `load_elf` as a whole: the image's bytes on the image's pages, everything else as it was. */
  lemma LoadElfBytes(m: Machine, t: Task, elf: seq<byte>, segs: seq<Segment>, x: nat)
    requires MachineOk(m) && TaskOk(m, t)
    requires ValidImage(elf, segs) && Congruent(segs) && Unoccupied(t.mappedPage.Keys, segs)
    ensures var (m', t') := LoadElfSpec(m, t, elf, segs, |segs|);
            ByteAt(Memory(m', t'), x) ==
            if InImagePages(segs, |segs|, PageOf(x)) then Some(ImageByte(elf, segs, |segs|, x))
            else ByteAt(Memory(m, t), x)
  {
    var pages := Memory(m, t);
    MemoryPages(m, t);
    assert PageOf(x) in pages ==> !InImagePages(segs, |segs|, PageOf(x));
    hide MachineOk, TaskOk, Memory, LoadElfSpec, LoadImage, Unoccupied, InImagePages, ValidImage, Congruent;
    LoadElfSpecOk(m, t, elf, segs, |segs|);
    LoadImageKeys(pages, elf, segs, |segs|, PageOf(x));
    if InImagePages(segs, |segs|, PageOf(x)) {
      LoadImageByte(pages, elf, segs, |segs|, x);
    } else {
      LoadImageOutside(pages, elf, segs, |segs|, x);
    }
  }
}
