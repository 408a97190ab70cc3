/**
 `map_stack` on the machine: the stack's pages are mapped one by one, and the top page is written
 through the seat window before it is mapped.
 */
module StackMapping {
  import opened Base
  import opened Ordering
  import opened Machine
  import opened TaskSpace
  import opened AddressSpace
  import opened Window
  import opened CopyLoop
  import opened Elf
  import opened Image
  import opened Stack

  // ------------------------------------------------------------------ an open window

  /** Frame `f` is mapped at the seat. */
  ghost predicate Open(m: Machine, f: nat) {
    && m.seat % PAGE_SIZE == 0 && Loc(INIT_VSPACE, m.seat) in m.entries
    && m.entries[Loc(INIT_VSPACE, m.seat)] == f && f in m.frames
  }

  function WithPage(m: Machine, f: nat, p: Page): Machine {
    m.(frames := m.frames[f := p])
  }

  /** Write at stack address `sp` through the window. */
  method WriteAt(k: Kernel, sp: nat, data: seq<byte>, ghost m1: Machine, ghost f: nat, ghost p: Page)
    requires Open(m1, f) && k.m == WithPage(m1, f, p) && sp % PAGE_SIZE + |data| <= PAGE_SIZE
    modifies k
    ensures k.m == WithPage(m1, f, Splice(p, sp % PAGE_SIZE, data))
  {
    WindowAddress(k.m.seat, sp % PAGE_SIZE);
    k.m := Store(k.m, INIT_VSPACE, k.m.seat + sp % PAGE_SIZE, data);
    assert m1.frames[f := p][f := Splice(p, sp % PAGE_SIZE, data)] == m1.frames[f := Splice(p, sp % PAGE_SIZE, data)];
  }

  // ------------------------------------------------------------------ strings

  /** The address arithmetic of the code is the offset arithmetic of the page. */
  lemma ArgAddress(base: nat, o: nat, arg: seq<byte>)
    requires base % PAGE_SIZE == 0 && o <= PAGE_SIZE && ArgOffset(o, arg) >= 0
    ensures base + o >= |arg| + 1
    ensures (base + o - |arg| - 1) / STACK_ALIGN * STACK_ALIGN == base + ArgOffset(o, arg)
    ensures (base + ArgOffset(o, arg)) % PAGE_SIZE == ArgOffset(o, arg) && ArgOffset(o, arg) + |arg| < PAGE_SIZE
  {
    var x := o - |arg| - 1;
    AlignedBelow(x);
    PageAligned(base);
    AlignShift(base, x);
    PageShift(base, ArgOffset(o, arg));
  }

  lemma AlignedBelow(x: int)
    requires x / STACK_ALIGN * STACK_ALIGN >= 0
    ensures 0 <= x / STACK_ALIGN * STACK_ALIGN <= x
  {
  }

  lemma PageAligned(base: nat)
    requires base % PAGE_SIZE == 0
    ensures base % STACK_ALIGN == 0
  {
  }

  lemma AlignShift(base: nat, x: nat)
    requires base % STACK_ALIGN == 0
    ensures (base + x) / STACK_ALIGN * STACK_ALIGN == base + x / STACK_ALIGN * STACK_ALIGN
  {
  }

  lemma PageShift(base: nat, y: nat)
    requires base % PAGE_SIZE == 0 && y < PAGE_SIZE
    ensures (base + y) % PAGE_SIZE == y
  {
  }

  /** Progress of the string loop: what is still to be written, and the pointers collected. */
  ghost predicate ArgsLeft(base: nat, args: seq<seq<byte>>, i: nat, o: nat, p: Page, ptrs: seq<nat>)
    requires StackFits(args)
  {
    && i <= |args| && o <= PAGE_SIZE && Bottom(o, args[i..]) == Bottom(PAGE_SIZE, args)
    && Bottom(PAGE_SIZE, args) >= 0 && PutArgs(p, o, args[i..]) == PutArgs(ZeroPage(), PAGE_SIZE, args)
    && |ptrs| == i && (forall j :: 0 <= j < i ==> ptrs[j] == base + ArgOffsets(PAGE_SIZE, args)[j])
    && (forall j :: i <= j < |args| ==> ArgOffsets(o, args[i..])[j - i] == ArgOffsets(PAGE_SIZE, args)[j])
  }

  lemma ArgsTurn(base: nat, args: seq<seq<byte>>, i: nat, o: nat, p: Page, ptrs: seq<nat>)
    requires StackFits(args) && ArgsLeft(base, args, i, o, p, ptrs) && i < |args|
    ensures var q := ArgOffset(o, args[i]);
            && q >= 0 && q + |args[i]| <= PAGE_SIZE
            && ArgsLeft(base, args, i + 1, q, Splice(p, q, args[i]), ptrs + [base + q])
  {
    var rest := args[i..];
    var q := ArgOffset(o, args[i]);
    assert rest[0] == args[i] && rest[1..] == args[i + 1..];
    BottomBelow(q, rest[1..]);
    assert ArgOffsets(o, rest) == [q] + ArgOffsets(q, rest[1..]);
    forall j | i + 1 <= j < |args|
      ensures ArgOffsets(q, args[i + 1..])[j - (i + 1)] == ArgOffsets(PAGE_SIZE, args)[j]
    {
      assert ArgOffsets(o, rest)[j - i] == ArgOffsets(q, rest[1..])[j - i - 1];
    }
    assert ArgOffsets(PAGE_SIZE, args)[i] == q by { assert ArgOffsets(o, rest)[i - i] == q; }
  }

  lemma ArgsStart(base: nat, args: seq<seq<byte>>)
    requires StackFits(args)
    ensures ArgsLeft(base, args, 0, PAGE_SIZE, ZeroPage(), [])
  {
    assert args[0..] == args;
    BottomBelow(PAGE_SIZE, args);
  }

  lemma ArgsDone(base: nat, args: seq<seq<byte>>, o: nat, p: Page, ptrs: seq<nat>)
    requires StackFits(args) && ArgsLeft(base, args, |args|, o, p, ptrs)
    ensures Bottom(PAGE_SIZE, args) >= 0
    ensures o == Bottom(PAGE_SIZE, args) && p == PutArgs(ZeroPage(), PAGE_SIZE, args)
  {
    hide StackFits, ArgOffsets;
    assert args[|args|..] == [];
  }

  lemma ArgsDonePointers(base: nat, args: seq<seq<byte>>, o: nat, p: Page, ptrs: seq<nat>)
    requires StackFits(args) && ArgsLeft(base, args, |args|, o, p, ptrs)
    ensures ptrs == ArgPointers(base, args)
  {
    hide StackFits, ArgOffsets, PutArgs, Bottom, ArgPointers;
  }

  method WriteStrings(k: Kernel, end: nat, args: seq<seq<byte>>, ghost m1: Machine, ghost f: nat)
    returns (stackPtr: nat, argsPtr: seq<nat>, ghost p: Page)
    requires end % PAGE_SIZE == 0 && end >= PAGE_SIZE && StackFits(args)
    requires Open(m1, f) && k.m == WithPage(m1, f, ZeroPage())
    modifies k
    ensures Bottom(PAGE_SIZE, args) >= 0
    ensures stackPtr == end - PAGE_SIZE + Bottom(PAGE_SIZE, args) && argsPtr == ArgPointers(end - PAGE_SIZE, args)
    ensures p == PutArgs(ZeroPage(), PAGE_SIZE, args) && k.m == WithPage(m1, f, p)
  {
    ghost var base, o: nat := end - PAGE_SIZE, PAGE_SIZE;
    stackPtr, argsPtr, p := end, [], ZeroPage();
    hide StackFits, ArgsLeft, ArgOffset, Open, WithPage, PutArgs, Bottom, ArgPointers;
    ArgsStart(base, args);
    for i := 0 to |args|
      invariant stackPtr == base + o && o <= PAGE_SIZE
      invariant ArgsLeft(base, args, i, o, p, argsPtr)
      invariant k.m == WithPage(m1, f, p)
    {
      ArgsTurn(base, args, i, o, p, argsPtr);
      ArgAddress(base, o, args[i]);
      stackPtr := (stackPtr - |args[i]| - 1) / STACK_ALIGN * STACK_ALIGN;
      WriteAt(k, stackPtr, args[i], m1, f, p);
      o := ArgOffset(o, args[i]);
      p := Splice(p, o, args[i]);
      argsPtr := argsPtr + [stackPtr];
    }
    ArgsDone(base, args, o, p, argsPtr);
    ArgsDonePointers(base, args, o, p, argsPtr);
  }

  // ------------------------------------------------------------------ words

  /** The page after the first `i` words. */
  function PushFirst(s: seq<byte>, o: nat, ws: seq<nat>, i: nat): (r: seq<byte>)
    requires i <= |ws| && WORD * |ws| <= o <= |s|
    ensures |r| == |s|
  {
    PushAll(s, o, ws[..i])
  }

  lemma PushFirstEnds(s: seq<byte>, o: nat, ws: seq<nat>)
    requires WORD * |ws| <= o <= |s|
    ensures PushFirst(s, o, ws, 0) == s && PushFirst(s, o, ws, |ws|) == PushAll(s, o, ws)
  {
    assert ws[..|ws|] == ws;
  }

  lemma PushFirstStep(s: seq<byte>, o: nat, ws: seq<nat>, i: nat)
    requires i < |ws| && WORD * |ws| <= o <= |s|
    ensures PushFirst(s, o, ws, i + 1) == Splice(PushFirst(s, o, ws, i), o - WORD * i - WORD, Encode(ws[i], WORD))
  {
    assert ws[..i + 1][..i] == ws[..i];
  }

  method PushWords(k: Kernel, sp0: nat, ws: seq<nat>, ghost base: nat, ghost o: nat,
                   ghost m1: Machine, ghost f: nat, ghost p0: Page) returns (stackPtr: nat)
    requires base % PAGE_SIZE == 0 && sp0 == base + o && WORD * |ws| <= o <= PAGE_SIZE
    requires Open(m1, f) && k.m == WithPage(m1, f, p0)
    modifies k
    ensures stackPtr == sp0 - WORD * |ws| && k.m == WithPage(m1, f, PushAll(p0, o, ws))
  {
    stackPtr := sp0;
    hide Open, WithPage, PushAll, PushFirst, Encode, Splice;
    PushFirstEnds(p0, o, ws);
    for i := 0 to |ws|
      invariant stackPtr == base + o - WORD * i
      invariant k.m == WithPage(m1, f, PushFirst(p0, o, ws, i))
    {
      PushFirstStep(p0, o, ws, i);
      stackPtr := stackPtr - WORD;
      PageShift(base, o - WORD * i - WORD);
      WriteAt(k, stackPtr, Encode(ws[i], WORD), m1, f, PushFirst(p0, o, ws, i));
    }
  }

  /** The top page: map it at the seat, write strings and words, unmap it. */
  method WriteTopPage(k: Kernel, cap: nat, entry: nat, end: nat, args: seq<seq<byte>>) returns (stackPtr: nat)
    requires end % PAGE_SIZE == 0 && end >= PAGE_SIZE && StackFits(args)
    requires MachineOk(k.m) && Loose(k.m, cap) && k.m.frames[cap] == ZeroPage()
    modifies k
    ensures stackPtr == end - PAGE_SIZE + SpOffset(args)
    ensures k.m == WithPage(old(k.m), cap, StackPage(end - PAGE_SIZE, entry, args))
  {
    ghost var m0, base := k.m, end - PAGE_SIZE;
    OpenWindow(m0, cap, m0.seat);
    var (m1, mapped) := FrameMap(k.m, cap, INIT_VSPACE, k.m.seat);
    assert mapped == Ok;
    k.m := m1;
    assert m1.frames == m1.frames[cap := ZeroPage()];
    assert Open(m1, cap);
    PagePieces(base, entry, args);
    assert |Pushed(ArgPointers(base, args), entry)| == WordCount(args);
    hide MachineOk, StackFits, Open, FrameMap, PutArgs, PushAll, Pushed, Bottom, ArgPointers;
    var argsPtr; ghost var p;
    stackPtr, argsPtr, p := WriteStrings(k, end, args, m1, cap);
    stackPtr := PushWords(k, stackPtr, Pushed(argsPtr, entry), base, Bottom(PAGE_SIZE, args), m1, cap, p);
    CloseWindow(m0, cap, m0.seat, k.m.frames);
    var (m2, unmapped) := FrameUnmap(k.m, cap);
    assert unmapped == Ok;
    k.m := m2;
  }

  // ------------------------------------------------------------------ the pages of the stack

  function StackPages(start: nat, end: nat): seq<nat>
    requires start % PAGE_SIZE == 0 && end % PAGE_SIZE == 0
  {
    if start < end then PagesBetween(start, end) else []
  }

  function StackContents(v: nat, end: nat, entry: nat, args: seq<seq<byte>>): Page
    requires end >= PAGE_SIZE && (v == end - PAGE_SIZE ==> StackFits(args))
  {
    if v == end - PAGE_SIZE then StackPage(v, entry, args) else ZeroPage()
  }

  /** Zeroed pages below, the written page on top. */
  function StackEffects(ps: seq<nat>, end: nat, entry: nat, args: seq<seq<byte>>): seq<Effect>
    requires end >= PAGE_SIZE && StackFits(args)
  {
    seq(|ps|, i requires 0 <= i < |ps| => Fresh(ps[i], StackContents(ps[i], end, entry, args)))
  }

  /** A new frame; the top one is written before it is mapped. */
  method PrepareFrame(k: Kernel, v: nat, entry: nat, end: nat, args: seq<seq<byte>>) returns (cap: nat, stackPtr: nat)
    requires end % PAGE_SIZE == 0 && end >= PAGE_SIZE && StackFits(args) && MachineOk(k.m)
    modifies k
    ensures cap == old(k.m.next) && k.m == AddFrame(old(k.m), StackContents(v, end, entry, args))
    ensures stackPtr == if v == end - PAGE_SIZE then end - PAGE_SIZE + SpOffset(args) else end
  {
    hide MachineOk, StackFits, StackPage, WithPage, Loose, AllocFrame, AddFrame;
    WrittenFrame(k.m, StackContents(v, end, entry, args));
    cap := k.m.next;
    k.m := AllocFrame(k.m);
    stackPtr := end;
    if v == end - PAGE_SIZE {
      stackPtr := WriteTopPage(k, cap, entry, end, args);
    }
  }

  /** One page: allocate, write it if it is the top one, map it. */
  method MapStackPage(k: Kernel, task: Sel4Task, v: nat, entry: nat, end: nat, args: seq<seq<byte>>)
    returns (stackPtr: nat)
    requires end % PAGE_SIZE == 0 && end >= PAGE_SIZE && StackFits(args)
    requires MachineOk(k.m) && TaskOk(k.m, task.View()) && v % PAGE_SIZE == 0 && v !in task.mappedPage
    modifies k, task
    ensures (k.m, task.View()) == Apply(old(k.m), old(task.View()), Fresh(v, StackContents(v, end, entry, args)))
    ensures stackPtr == if v == end - PAGE_SIZE then end - PAGE_SIZE + SpOffset(args) else end
  {
    hide MachineOk, TaskOk, StackFits, StackContents, MapPageSpec, Mappable, Apply, AddFrame, Missing;
    FreshIsMapped(k.m, task.View(), v, StackContents(v, end, entry, args));
    var cap;
    cap, stackPtr := PrepareFrame(k, v, entry, end, args);
    task.MapPage(k, v, cap);
  }

  lemma WrittenFrame(m: Machine, page: Page)
    requires MachineOk(m)
    ensures MachineOk(AllocFrame(m)) && Loose(AllocFrame(m), m.next) && m.next in AllocFrame(m).frames
    ensures AllocFrame(m).frames[m.next] == ZeroPage()
    ensures AllocFrame(m) == AddFrame(m, ZeroPage()) && WithPage(AllocFrame(m), m.next, page) == AddFrame(m, page)
  {
    AddFrameOk(m, ZeroPage());
    hide MachineOk;
    assert m.frames[m.next := ZeroPage()][m.next := page] == m.frames[m.next := page];
  }

  lemma FreshIsMapped(m: Machine, t: Task, v: nat, page: Page)
    requires TaskOk(m, t) && v % PAGE_SIZE == 0 && v !in t.mappedPage
    ensures Mappable(AddFrame(m, page), t, v, m.next)
    ensures MapPageSpec(AddFrame(m, page), t, v, m.next) == Apply(m, t, Fresh(v, page))
  {
    FreeEntry(m, t, v);
    hide TaskOk;
  }

  lemma StackEffectsSnoc(ps: seq<nat>, v: nat, end: nat, entry: nat, args: seq<seq<byte>>)
    requires end >= PAGE_SIZE && StackFits(args)
    ensures StackEffects(ps + [v], end, entry, args) ==
            StackEffects(ps, end, entry, args) + [Fresh(v, StackContents(v, end, entry, args))]
  {
    hide StackFits, StackContents;
  }

  function StackMemory(ps: seq<nat>, end: nat, entry: nat, args: seq<seq<byte>>): map<nat, Page>
    requires end >= PAGE_SIZE && StackFits(args)
  {
    map v | v in ps :: StackContents(v, end, entry, args)
  }

  lemma StackMemorySnoc(base: map<nat, Page>, ps: seq<nat>, v: nat, end: nat, entry: nat, args: seq<seq<byte>>)
    requires end >= PAGE_SIZE && StackFits(args)
    ensures base + StackMemory(ps + [v], end, entry, args) ==
            (base + StackMemory(ps, end, entry, args))[v := StackContents(v, end, entry, args)]
  {
    hide StackFits, StackContents;
  }

  /** The stack's pages beside those that were there. */
  lemma {:induction false} StackEffectsMemory(base: map<nat, Page>, ps: seq<nat>, end: nat, entry: nat,
                                              args: seq<seq<byte>>)
    requires end >= PAGE_SIZE && StackFits(args) && AlignedPages(ps) && forall v :: v in ps ==> v !in base
    ensures AllEnabledOn(base, StackEffects(ps, end, entry, args))
    ensures SimpleAll(base, StackEffects(ps, end, entry, args)) == base + StackMemory(ps, end, entry, args)
    decreases |ps|
  {
    if ps == [] {
      assert base + StackMemory(ps, end, entry, args) == base;
    } else {
      var pre, v := ps[..|ps| - 1], ps[|ps| - 1];
      assert ps == pre + [v] && v !in pre && v in ps;
      assert v % PAGE_SIZE == 0 && AlignedPages(pre);
      StackEffectsMemory(base, pre, end, entry, args);
      assert v !in StackMemory(pre, end, entry, args);
      hide StackFits, StackEffects, StackMemory, StackContents, SimpleAll, AllEnabledOn;
      StackEffectsSnoc(pre, v, end, entry, args);
      StackMemorySnoc(base, pre, v, end, entry, args);
      SimpleSnoc(base, StackEffects(pre, end, entry, args), Fresh(v, StackContents(v, end, entry, args)));
    }
  }

  /** The machine and the task after the first `i` pages. */
  function StackFirst(m: Machine, t: Task, ps: seq<nat>, i: nat, end: nat, entry: nat, args: seq<seq<byte>>)
    : (Machine, Task)
    requires i <= |ps| && end >= PAGE_SIZE && StackFits(args)
  {
    ApplyAll(m, t, StackEffects(ps[..i], end, entry, args))
  }

  lemma StackFirstEnds(m: Machine, t: Task, ps: seq<nat>, end: nat, entry: nat, args: seq<seq<byte>>)
    requires end >= PAGE_SIZE && StackFits(args)
    ensures StackFirst(m, t, ps, 0, end, entry, args) == (m, t)
    ensures StackFirst(m, t, ps, |ps|, end, entry, args) == ApplyAll(m, t, StackEffects(ps, end, entry, args))
  {
    assert ps[..|ps|] == ps && StackEffects(ps[..0], end, entry, args) == [];
  }

  /** One turn of the page loop. */
  lemma StackTurn(m: Machine, t: Task, ps: seq<nat>, i: nat, end: nat, entry: nat, args: seq<seq<byte>>)
    requires end >= PAGE_SIZE && StackFits(args) && AlignedPages(ps) && i < |ps|
    requires MachineOk(m) && TaskOk(m, t) && forall v :: v in ps ==> v !in t.mappedPage
    ensures var (m1, t1) := StackFirst(m, t, ps, i, end, entry, args);
            && MachineOk(m1) && TaskOk(m1, t1) && ps[i] !in t1.mappedPage && ps[i] % PAGE_SIZE == 0
            && StackFirst(m, t, ps, i + 1, end, entry, args) ==
               Apply(m1, t1, Fresh(ps[i], StackContents(ps[i], end, entry, args)))
  {
    var pre := ps[..i];
    assert ps[..i + 1] == pre + [ps[i]];
    assert ps[i] in ps && ps[i] !in pre && AlignedPages(pre) && ps[i] % PAGE_SIZE == 0;
    MemoryPages(m, t);
    hide MachineOk, TaskOk, Memory, LocalTo, Apply, ApplyAll, StackFits, StackEffects, StackContents, AlignedPages;
    StackEffectsMemory(Memory(m, t), pre, end, entry, args);
    EffectsOk(m, t, StackEffects(pre, end, entry, args));
    var (m1, t1) := ApplyAll(m, t, StackEffects(pre, end, entry, args));
    MemoryPages(m1, t1);
    StackEffectsSnoc(pre, ps[i], end, entry, args);
    ApplySnoc(m, t, StackEffects(pre, end, entry, args), Fresh(ps[i], StackContents(ps[i], end, entry, args)));
  }

  lemma StackPagesOk(start: nat, end: nat)
    requires start % PAGE_SIZE == 0 && end % PAGE_SIZE == 0 && start < end
    ensures var ps := StackPages(start, end); AlignedPages(ps) && |ps| > 0 && ps[|ps| - 1] == end - PAGE_SIZE
  {
  }

  /** Every page of the range, and no other. */
  lemma StackPagesIff(start: nat, end: nat, v: nat)
    requires start % PAGE_SIZE == 0 && end % PAGE_SIZE == 0 && start < end
    ensures v in StackPages(start, end) <==> v % PAGE_SIZE == 0 && start <= v < end
  {
    var ps := StackPages(start, end);
    if v % PAGE_SIZE == 0 && start <= v < end {
      WhichPage(start, v, |ps|);
      assert ps[(v - start) / PAGE_SIZE] == v;
    }
  }

  /** No mapped page lies in the range. */
  ghost predicate RangeFree(mapped: set<nat>, start: nat, end: nat) {
    forall v :: v in mapped ==> v < start || end <= v
  }

  lemma StackPagesFree(mapped: set<nat>, start: nat, end: nat)
    requires start % PAGE_SIZE == 0 && end % PAGE_SIZE == 0 && start < end && RangeFree(mapped, start, end)
    ensures forall v :: v in StackPages(start, end) ==> v !in mapped
  {
    forall v | v in StackPages(start, end) ensures v !in mapped { StackPagesIff(start, end, v); }
  }

  method MapStackPages(k: Kernel, task: Sel4Task, entry: nat, start: nat, end: nat, args: seq<seq<byte>>)
    returns (sp: nat)
    requires MachineOk(k.m) && TaskOk(k.m, task.View())
    requires start % PAGE_SIZE == 0 && end % PAGE_SIZE == 0 && start < end && StackFits(args)
    requires RangeFree(task.mappedPage.Keys, start, end)
    modifies k, task
    ensures sp == end - PAGE_SIZE + SpOffset(args)
    ensures (k.m, task.View()) ==
            ApplyAll(old(k.m), old(task.View()), StackEffects(StackPages(start, end), end, entry, args))
  {
    ghost var m0, t0 := k.m, task.View();
    var ps := StackPages(start, end);
    StackPagesOk(start, end);
    StackPagesFree(task.mappedPage.Keys, start, end);
    sp := end;
    hide MachineOk, TaskOk, Apply, ApplyAll, StackFits, StackEffects, StackContents, AlignedPages, StackFirst,
         StackPages;
    StackFirstEnds(m0, t0, ps, end, entry, args);
    for i := 0 to |ps|
      invariant (k.m, task.View()) == StackFirst(m0, t0, ps, i, end, entry, args)
      invariant i == |ps| ==> sp == end - PAGE_SIZE + SpOffset(args)
    {
      StackTurn(m0, t0, ps, i, end, entry, args);
      sp := MapStackPage(k, task, ps[i], entry, end, args);
    }
  }

  /** `map_stack`; an empty range maps nothing and returns `end`. */
  method MapStack(k: Kernel, task: Sel4Task, entry: nat, start: nat, end: nat, args: seq<seq<byte>>) returns (sp: nat)
    requires MachineOk(k.m) && TaskOk(k.m, task.View())
    requires start % PAGE_SIZE == 0 && end % PAGE_SIZE == 0
    requires start < end ==> StackFits(args)
    requires RangeFree(task.mappedPage.Keys, start, end)
    modifies k, task
    ensures start >= end ==> sp == end && k.m == old(k.m) && task.View() == old(task.View())
    ensures start < end ==> forall v :: v in task.mappedPage <==>
                              v in old(task.mappedPage) || (v % PAGE_SIZE == 0 && start <= v < end)
    ensures start < end ==> StackBytes(Memory(old(k.m), old(task.View())), Memory(k.m, task.View()), start, end)
    ensures start < end ==>
              && sp == end - PAGE_SIZE + SpOffset(args)
              && (k.m, task.View()) ==
                 ApplyAll(old(k.m), old(task.View()), StackEffects(StackPages(start, end), end, entry, args))
  {
    hide MachineOk, TaskOk, StackFits, ApplyAll, StackEffects, StackPages, StackBytes, RangeFree, Memory;
    sp := end;
    if start < end {
      StackIndex(k.m, task.View(), entry, start, end, args);
      StackRange(k.m, task.View(), entry, start, end, args);
      sp := MapStackPages(k, task, entry, start, end, args);
    }
  }

  lemma TopOfStack(ps: seq<nat>, end: nat, entry: nat, args: seq<seq<byte>>, base: map<nat, Page>)
    requires end >= PAGE_SIZE && StackFits(args) && end - PAGE_SIZE in ps
    ensures end - PAGE_SIZE in base + StackMemory(ps, end, entry, args)
    ensures (base + StackMemory(ps, end, entry, args))[end - PAGE_SIZE] == StackPage(end - PAGE_SIZE, entry, args)
  {
    hide StackFits, StackPage;
  }

  /** After `map_stack` the memory has the stack's pages beside the old ones. */
  lemma StackMapped(m: Machine, t: Task, ps: seq<nat>, end: nat, entry: nat, args: seq<seq<byte>>)
    requires MachineOk(m) && TaskOk(m, t) && end >= PAGE_SIZE && StackFits(args) && AlignedPages(ps)
    requires forall v :: v in ps ==> v !in t.mappedPage
    ensures var (m', t') := ApplyAll(m, t, StackEffects(ps, end, entry, args));
            && MachineOk(m') && TaskOk(m', t') && t'.vspace == t.vspace && LocalTo(m, m', t.vspace)
            && Memory(m', t') == Memory(m, t) + StackMemory(ps, end, entry, args)
  {
    MemoryPages(m, t);
    hide MachineOk, TaskOk, Memory, LocalTo, ApplyAll, StackEffects, StackMemory, StackFits, AlignedPages;
    StackEffectsMemory(Memory(m, t), ps, end, entry, args);
    EffectsOk(m, t, StackEffects(ps, end, entry, args));
  }

  /** Below the top page the new pages are zero, and every byte that was there is as it was. */
  ghost predicate StackBytes(before: Pages, after: Pages, start: nat, end: nat) {
    && (forall x: nat :: start <= x && x + PAGE_SIZE < end ==> ByteAt(after, x) == Some(0))
    && (forall x: nat :: x < start || end <= x ==> ByteAt(after, x) == ByteAt(before, x))
  }

  lemma StackByte(base: Pages, entry: nat, start: nat, end: nat, args: seq<seq<byte>>, x: nat)
    requires start % PAGE_SIZE == 0 && end % PAGE_SIZE == 0 && start < end && StackFits(args)
    ensures var after := base + StackMemory(StackPages(start, end), end, entry, args);
            && (start <= x && x + PAGE_SIZE < end ==> ByteAt(after, x) == Some(0))
            && (x < start || end <= x ==> ByteAt(after, x) == ByteAt(base, x))
  {
    StackPagesIff(start, end, PageOf(x));
    hide StackFits, StackPages, StackPage;
  }

  /** The index after `map_stack`. */
  lemma StackIndex(m: Machine, t: Task, entry: nat, start: nat, end: nat, args: seq<seq<byte>>)
    requires MachineOk(m) && TaskOk(m, t) && RangeFree(t.mappedPage.Keys, start, end)
    requires start % PAGE_SIZE == 0 && end % PAGE_SIZE == 0 && start < end && StackFits(args)
    ensures var (m', t') := ApplyAll(m, t, StackEffects(StackPages(start, end), end, entry, args));
            forall v :: v in t'.mappedPage <==> v in t.mappedPage || (v % PAGE_SIZE == 0 && start <= v < end)
  {
    hide MachineOk, TaskOk, Memory, LocalTo, ApplyAll, StackEffects, StackFits, AlignedPages, StackPages, RangeFree,
         StackContents;
    var ps := StackPages(start, end);
    StackPagesOk(start, end);
    StackPagesFree(t.mappedPage.Keys, start, end);
    StackMapped(m, t, ps, end, entry, args);
    MemoryPages(m, t);
    var (m', t') := ApplyAll(m, t, StackEffects(ps, end, entry, args));
    MemoryPages(m', t');
    forall v: nat ensures v in t'.mappedPage <==> v in t.mappedPage || (v % PAGE_SIZE == 0 && start <= v < end) {
      StackPagesIff(start, end, v);
      assert v in t'.mappedPage <==> v in Memory(m', t');
      assert v in t.mappedPage <==> v in Memory(m, t);
    }
  }

  /** The bytes after `map_stack`, apart from the top page. */
  lemma StackRange(m: Machine, t: Task, entry: nat, start: nat, end: nat, args: seq<seq<byte>>)
    requires MachineOk(m) && TaskOk(m, t) && RangeFree(t.mappedPage.Keys, start, end)
    requires start % PAGE_SIZE == 0 && end % PAGE_SIZE == 0 && start < end && StackFits(args)
    ensures var (m', t') := ApplyAll(m, t, StackEffects(StackPages(start, end), end, entry, args));
            StackBytes(Memory(m, t), Memory(m', t'), start, end)
  {
    hide MachineOk, TaskOk, Memory, LocalTo, ApplyAll, StackEffects, StackFits, AlignedPages, StackPages, RangeFree,
         StackContents, StackMemory, ByteAt;
    StackPagesOk(start, end);
    StackPagesFree(t.mappedPage.Keys, start, end);
    StackMapped(m, t, StackPages(start, end), end, entry, args);
    forall x: nat
      ensures var after := Memory(m, t) + StackMemory(StackPages(start, end), end, entry, args);
              && (start <= x && x + PAGE_SIZE < end ==> ByteAt(after, x) == Some(0))
              && (x < start || end <= x ==> ByteAt(after, x) == ByteAt(Memory(m, t), x))
    {
      StackByte(Memory(m, t), entry, start, end, args, x);
    }
  }

  /** The page below `end` parses, from the stack pointer up, to these arguments. */
  ghost predicate StackReadable(pages: map<nat, Page>, end: nat, entry: nat, args: seq<seq<byte>>)
    requires end >= PAGE_SIZE && StackFits(args)
  {
    var base := end - PAGE_SIZE;
    && base in pages
    && Parse(pages[base], base, SpOffset(args)) == Some(Parsed(args, [], AuxVector(entry, ArgPointers(base, args)[0])))
  }

  lemma BuiltIsReadable(pages: map<nat, Page>, end: nat, entry: nat, args: seq<seq<byte>>)
    requires PAGE_SIZE <= end <= Pow256(WORD) && StackFits(args)
    requires entry < Pow256(WORD) && forall i :: 0 <= i < |args| ==> NulFree(args[i])
    requires end - PAGE_SIZE in pages && pages[end - PAGE_SIZE] == StackPage(end - PAGE_SIZE, entry, args)
    ensures StackReadable(pages, end, entry, args)
  {
    hide Parse, StackPage, StackFits, SpOffset, ArgPointers, AuxVector, NulFree, Pow256;
    ParseUndoesBuild(end - PAGE_SIZE, entry, args);
  }

  /** A program started on a mapped stack finds its arguments there. */
  lemma MappedStackParses(m: Machine, t: Task, entry: nat, start: nat, end: nat, args: seq<seq<byte>>)
    requires MachineOk(m) && TaskOk(m, t)
    requires start % PAGE_SIZE == 0 && end % PAGE_SIZE == 0 && start < end <= Pow256(WORD) && StackFits(args)
    requires entry < Pow256(WORD) && forall i :: 0 <= i < |args| ==> NulFree(args[i])
    requires RangeFree(t.mappedPage.Keys, start, end)
    ensures var (m', t') := ApplyAll(m, t, StackEffects(StackPages(start, end), end, entry, args));
            StackReadable(Memory(m', t'), end, entry, args)
  {
    hide *;
    var ps := StackPages(start, end);
    StackPagesOk(start, end);
    StackPagesFree(t.mappedPage.Keys, start, end);
    StackMapped(m, t, ps, end, entry, args);
    TopOfStack(ps, end, entry, args, Memory(m, t));
    BuiltIsReadable(Memory(m, t) + StackMemory(ps, end, entry, args), end, entry, args);
  }
}
