/**
 `clone_vspace`: a deep copy of a task's memory, page by page, through two window pages.
 */
module Clone {
  import opened Base
  import opened Ordering
  import opened Machine
  import opened TaskSpace
  import opened AddressSpace
  import opened Window
  import opened CopyLoop

  /** One new page with the source's contents for every key. */
  function CloneEffects(pages: Pages, keys: seq<nat>): seq<Effect> {
    seq(|keys|, i requires 0 <= i < |keys| => Fresh(keys[i], Contents(pages, keys[i])))
  }

  /**
   One page: allocate, map the new frame at the second window and a copy of the source capability
   at the seat, copy the page across, and take everything down again.
   */
  method CopyPage(k: Kernel, src: nat) returns (c: nat)
    requires MachineOk(k.m) && src in k.m.caps
    modifies k
    ensures c == old(k.m.next) && k.m == AddFrame(old(k.m), old(k.m.frames)[src])
  {
    ghost var m0 := k.m;
    c := k.m.next;
    k.m := AllocFrame(k.m);
    ghost var m1 := k.m;
    CompleteMonotone(m0, m1, INIT_VSPACE, m1.ext);
    CompleteMonotone(m0, m1, INIT_VSPACE, m1.seat);
    OpenWindow(m1, c, m1.ext);
    var (m2, mapped) := FrameMap(k.m, c, INIT_VSPACE, k.m.ext);
    assert mapped == Ok;
    k.m := m2;
    CompleteMonotone(m1, m2, INIT_VSPACE, m2.seat);
    CopyThroughSeat(k, src, c);
    CloseWindow(m1, c, m1.ext, k.m.frames);
    var (m3, unmapped) := FrameUnmap(k.m, c);
    assert unmapped == Ok;
    k.m := m3;
    assert m1.frames[c := m0.frames[src]] == m0.frames[c := m0.frames[src]];
  }

  /** With the destination mapped at the second window, copy the source page over it. */
  method CopyThroughSeat(k: Kernel, src: nat, ghost dst: nat)
    requires src in k.m.caps && TempFree(k.m) && k.m.caps[src].frame in k.m.frames && WindowFree(k.m, k.m.seat)
    requires k.m.ext % PAGE_SIZE == 0 && k.m.ext != k.m.seat && Loc(INIT_VSPACE, k.m.ext) in k.m.entries
    requires k.m.entries[Loc(INIT_VSPACE, k.m.ext)] == dst && dst in k.m.frames
    modifies k
    ensures k.m == old(k.m).(frames := old(k.m.frames)[dst := old(k.m.frames[k.m.caps[src].frame])])
  {
    ghost var m0 := k.m;
    TempCopy(m0, src);
    var (m1, copied) := CopyCap(k.m, TEMP_SLOT, src);
    assert copied == Ok;
    k.m := m1;
    OpenWindow(m1, TEMP_SLOT, m1.seat);
    var (m2, mapped) := FrameMap(k.m, TEMP_SLOT, INIT_VSPACE, k.m.seat);
    assert mapped == Ok;
    k.m := m2;
    WindowAddress(k.m.seat, 0);
    WindowAddress(k.m.ext, 0);
    var data := Load(k.m, INIT_VSPACE, k.m.seat, PAGE_SIZE);
    k.m := Store(k.m, INIT_VSPACE, k.m.ext, data);
    assert data == m0.frames[m0.caps[src].frame];
    assert Splice(m0.frames[dst], 0, data) == data;
    CloseWindow(m1, TEMP_SLOT, m1.seat, k.m.frames);
    var (m3, unmapped) := FrameUnmap(k.m, TEMP_SLOT);
    assert unmapped == Ok;
    k.m := m3;
    var (m4, deleted) := DeleteCap(k.m, TEMP_SLOT);
    assert deleted == Ok;
    k.m := m4;
  }

  // ------------------------------------------------------------------ the whole address space

  ghost predicate ClonePre(m: Machine, src: Task, dst: Task) {
    && MachineOk(m) && TaskOk(m, src) && TaskOk(m, dst) && src.vspace != dst.vspace
    && src.mappedPage.Keys !! dst.mappedPage.Keys
  }

  function ClonedKeys(src: Task): (keys: seq<nat>)
    ensures Ascending(keys) && Elements(keys) == src.mappedPage.Keys
  {
    Ordered(src.mappedPage.Keys)
  }

  function Restrict(pages: Pages, keys: seq<nat>): Pages {
    map v | v in keys && v in pages :: pages[v]
  }

  lemma CloneSnoc(pages: Pages, keys: seq<nat>, v: nat)
    requires v in pages
    ensures CloneEffects(pages, keys + [v]) == CloneEffects(pages, keys) + [Fresh(v, pages[v])]
  {
  }

  lemma RestrictSnoc(pages: Pages, base: Pages, keys: seq<nat>, v: nat)
    requires v in pages
    ensures base + Restrict(pages, keys + [v]) == (base + Restrict(pages, keys))[v := pages[v]]
  {
  }

  /** On the simple memory: the new pages, with the source's contents, beside the old ones. */
  lemma {:induction false} CloneMemory(pages: Pages, base: Pages, keys: seq<nat>)
    requires AlignedPages(keys) && forall v :: v in keys ==> v in pages && v !in base
    ensures AllEnabledOn(base, CloneEffects(pages, keys))
    ensures SimpleAll(base, CloneEffects(pages, keys)) == base + Restrict(pages, keys)
    decreases |keys|
  {
    if keys == [] {
      assert base + Restrict(pages, []) == base;
    } else {
      var pre, v := keys[..|keys| - 1], keys[|keys| - 1];
      assert keys == pre + [v];
      assert v !in pre && v % PAGE_SIZE == 0;
      CloneMemory(pages, base, pre);
      hide CloneEffects, Restrict, SimpleAll, AllEnabledOn;
      CloneSnoc(pages, pre, v);
      RestrictSnoc(pages, base, pre, v);
      assert v !in base + Restrict(pages, pre) by { RestrictKeys(pages, pre); }
      SimpleSnoc(base, CloneEffects(pages, pre), Fresh(v, pages[v]));
    }
  }

  lemma RestrictKeys(pages: Pages, keys: seq<nat>)
    ensures forall v :: v in Restrict(pages, keys) ==> v in keys
  {
  }

  lemma ClonedKeysOk(m: Machine, src: Task, dst: Task)
    requires ClonePre(m, src, dst)
    ensures AlignedPages(ClonedKeys(src))
    ensures forall v :: v in ClonedKeys(src) <==> v in src.mappedPage
    ensures forall v :: v in ClonedKeys(src) ==> v in Memory(m, src) && v !in Memory(m, dst)
  {
    var keys := ClonedKeys(src);
    InElements(keys);
    MemoryPages(m, src);
    MemoryPages(m, dst);
    forall i | 0 <= i < |keys| ensures keys[i] % PAGE_SIZE == 0 {
      assert keys[i] in src.mappedPage;
      assert PageOk(m, src, keys[i]);
    }
  }

  /** What cloning does to the machine and the new task. */
  function CloneSpec(m: Machine, src: Task, dst: Task, keys: seq<nat>): (Machine, Task) {
    ApplyAll(m, dst, CloneEffects(Memory(m, src), keys))
  }

  /** After any number of pages: both tasks in order, the source as it was, the copied pages in the new task. */
  lemma ClonePrefix(m: Machine, src: Task, dst: Task, keys: seq<nat>)
    requires ClonePre(m, src, dst) && AlignedPages(keys)
    requires forall v :: v in keys ==> v in Memory(m, src) && v !in Memory(m, dst)
    ensures var (m', dst') := CloneSpec(m, src, dst, keys);
            && MachineOk(m') && TaskOk(m', dst') && dst'.vspace == dst.vspace && LocalTo(m, m', dst.vspace)
            && TaskOk(m', src) && Memory(m', src) == Memory(m, src)
            && Memory(m', dst') == Memory(m, dst) + Restrict(Memory(m, src), keys)
            && dst'.mappedPage.Keys == Memory(m', dst').Keys
  {
    hide MachineOk, TaskOk, Memory, LocalTo, ApplyAll, CloneEffects, Restrict, AlignedPages;
    CloneMemory(Memory(m, src), Memory(m, dst), keys);
    EffectsOk(m, dst, CloneEffects(Memory(m, src), keys));
    var (m', dst') := CloneSpec(m, src, dst, keys);
    LocalKeepsTask(m, m', dst.vspace, src);
    MemoryPages(m', dst');
  }

  lemma CloneTurn(m: Machine, src: Task, dst: Task, keys: seq<nat>, i: nat)
    requires ClonePre(m, src, dst) && AlignedPages(keys) && i < |keys|
    requires forall v :: v in keys ==> v in Memory(m, src) && v !in Memory(m, dst) && v in src.mappedPage
    ensures var (m1, d1) := CloneSpec(m, src, dst, keys[..i]);
            var v := keys[i];
            && MachineOk(m1) && TaskOk(m1, d1) && v !in d1.mappedPage && v % PAGE_SIZE == 0
            && src.mappedPage[v] in m1.caps && src.mappedPage[v] in m1.frames
            && Apply(m1, d1, Fresh(v, m1.frames[src.mappedPage[v]])) == CloneSpec(m, src, dst, keys[..i + 1])
  {
    var pre, v := keys[..i], keys[i];
    assert keys[..i + 1] == pre + [v];
    assert AlignedPages(pre) && v !in pre;
    assert v in keys && v % PAGE_SIZE == 0;
    hide MachineOk, TaskOk, Memory, LocalTo, ApplyAll, CloneEffects, Restrict, AlignedPages, PageOk;
    ClonePrefix(m, src, dst, pre);
    RestrictKeys(Memory(m, src), pre);
    CloneSnoc(Memory(m, src), pre, v);
    ApplySnoc(m, dst, CloneEffects(Memory(m, src), pre), Fresh(v, Memory(m, src)[v]));
    var (m1, d1) := CloneSpec(m, src, dst, pre);
    PageOfTask(m1, src, v);
  }

  method CloneVspace(k: Kernel, dst: Sel4Task, src: Sel4Task)
    requires dst != src && ClonePre(k.m, src.View(), dst.View())
    modifies k, dst
    ensures (k.m, dst.View()) == CloneSpec(old(k.m), src.View(), old(dst.View()), ClonedKeys(src.View()))
  {
    ghost var m0, d0, s := k.m, dst.View(), src.View();
    ClonedKeysOk(m0, s, d0);
    hide ClonePre, MachineOk, TaskOk, Memory, ApplyAll, AlignedPages, Apply;
    var keys := ClonedKeys(src.View());
    assert CloneSpec(m0, s, d0, []) == (m0, d0) by { CloneNothing(m0, s, d0); }
    for i := 0 to |keys|
      invariant (k.m, dst.View()) == CloneSpec(m0, s, d0, keys[..i])
    {
      CloneTurn(m0, s, d0, keys, i);
      CloneOne(k, dst, src.mappedPage[keys[i]], keys[i]);
    }
    assert keys[..|keys|] == keys;
  }

  lemma CloneNothing(m: Machine, src: Task, dst: Task)
    ensures CloneSpec(m, src, dst, []) == (m, dst)
  {
  }

  /** One turn of the loop. */
  method CloneOne(k: Kernel, dst: Sel4Task, srcCap: nat, v: nat)
    requires MachineOk(k.m) && TaskOk(k.m, dst.View()) && v !in dst.mappedPage && v % PAGE_SIZE == 0
    requires srcCap in k.m.caps && srcCap in k.m.frames
    modifies k, dst
    ensures (k.m, dst.View()) == Apply(old(k.m), old(dst.View()), Fresh(v, old(k.m.frames)[srcCap]))
  {
    var c := CopyPage(k, srcCap);
    dst.MapPage(k, v, c);
  }

  // ------------------------------------------------------------------ what a clone promises

  lemma {:induction false} NextGrows(m: Machine, t: Task, es: seq<Effect>)
    ensures ApplyAll(m, t, es).0.next >= m.next
    decreases |es|
  {
    if es != [] {
      NextGrows(m, t, es[..|es| - 1]);
      var (m1, t1) := ApplyAll(m, t, es[..|es| - 1]);
      var e := es[|es| - 1];
      if e.Fresh? { MapInstalls(AddFrame(m1, e.page), t1, e.v); }
    }
  }

  /** Starting from an empty task, every capability that mapping effects put in the index is new. */
  lemma {:induction false} CapsAreNew(m: Machine, t: Task, es: seq<Effect>, v: nat)
    requires t.mappedPage == map[] && v in ApplyAll(m, t, es).1.mappedPage
    ensures ApplyAll(m, t, es).1.mappedPage[v] >= m.next
    decreases |es|
  {
    if es != [] {
      var pre := es[..|es| - 1];
      NextGrows(m, t, pre);
      if v in ApplyAll(m, t, pre).1.mappedPage {
        CapsAreNew(m, t, pre, v);
      }
    }
  }

  /** The system after task `i` has been cloned into task `j`. */
  function AfterClone(s: System, i: nat, j: nat): System
    requires i in s.tasks && j in s.tasks
  {
    var (m', t') := CloneSpec(s.m, s.tasks[i], s.tasks[j], ClonedKeys(s.tasks[i]));
    System(m', s.tasks[j := t'])
  }

  lemma RestrictAll(pages: Pages, keys: seq<nat>)
    requires Elements(keys) == pages.Keys
    ensures map[] + Restrict(pages, keys) == pages
  {
    InElements(keys);
  }

  lemma EmptyMemory(m: Machine, t: Task)
    requires t.mappedPage == map[]
    ensures Memory(m, t) == map[]
  {
  }

  lemma CloneAllowed(s: System, i: nat, j: nat)
    requires SystemOk(s) && i in s.tasks && j in s.tasks && i != j && s.tasks[j].mappedPage == map[]
    ensures ClonePre(s.m, s.tasks[i], s.tasks[j])
  {
  }

  /** Every frame of the clone is new. */
  lemma CloneFramesNew(s: System, i: nat, j: nat, v: nat)
    requires i in s.tasks && j in s.tasks && s.tasks[j].mappedPage == map[]
    requires v in AfterClone(s, i, j).tasks[j].mappedPage
    ensures AfterClone(s, i, j).tasks[j].mappedPage[v] >= s.m.next
  {
    hide ApplyAll, CloneEffects, Memory, ClonedKeys;
    CapsAreNew(s.m, s.tasks[j], CloneEffects(Memory(s.m, s.tasks[i]), ClonedKeys(s.tasks[i])), v);
  }

  /** Cloning into an empty task: equal memory, nothing else changed, the system still in order. */
  lemma CloneIsDeepCopy(s: System, i: nat, j: nat)
    requires SystemOk(s) && i in s.tasks && j in s.tasks && i != j && s.tasks[j].mappedPage == map[]
    ensures var s' := AfterClone(s, i, j);
            && SystemOk(s')
            && Memory(s'.m, s'.tasks[j]) == Memory(s.m, s.tasks[i])
            && (forall u :: u in s.tasks && u != j ==> Memory(s'.m, s.tasks[u]) == Memory(s.m, s.tasks[u]))
  {
    hide SystemOk, ClonePre, MachineOk, TaskOk, Memory, ApplyAll, AlignedPages, Restrict, CloneEffects, ClonedKeys;
    var src, dst := s.tasks[i], s.tasks[j];
    CloneAllowed(s, i, j);
    CloneMemoryAll(s.m, src, dst);
    EffectsKeepSystem(s, j, CloneEffects(Memory(s.m, src), ClonedKeys(src)));
  }

  lemma CloneMemoryAll(m: Machine, src: Task, dst: Task)
    requires ClonePre(m, src, dst) && dst.mappedPage == map[]
    ensures var es := CloneEffects(Memory(m, src), ClonedKeys(src));
            AllEnabledOn(Memory(m, dst), es) && SimpleAll(Memory(m, dst), es) == Memory(m, src)
  {
    ClonedKeysOk(m, src, dst);
    MemoryPages(m, src);
    EmptyMemory(m, dst);
    hide ClonePre, MachineOk, TaskOk, Memory, AlignedPages, Restrict, CloneEffects;
    CloneMemory(Memory(m, src), Memory(m, dst), ClonedKeys(src));
    RestrictAll(Memory(m, src), ClonedKeys(src));
  }

  /** After a clone, a byte write to either task is not visible in the other. */
  lemma CloneIsIsolated(s: System, i: nat, j: nat, writer: nat, reader: nat, a: nat, data: seq<byte>, x: nat)
    requires SystemOk(s) && i in s.tasks && j in s.tasks && i != j && s.tasks[j].mappedPage == map[]
    requires (writer == i && reader == j) || (writer == j && reader == i)
    ensures var s' := AfterClone(s, i, j);
            ByteAt(Memory(WriteSpec(s'.m, s'.tasks[writer], a, data).0, s'.tasks[reader]), x) ==
            ByteAt(Memory(s.m, s.tasks[i]), x)
  {
    CloneIsDeepCopy(s, i, j);
    hide SystemOk, Memory, WriteSpec, ByteAt;
    var s' := AfterClone(s, i, j);
    WriteChangesOnly(s', writer, a, data, reader, x);
  }
}
