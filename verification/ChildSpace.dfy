/**
 `make_child_vspace`: translation tables for the image and one page more, the image itself, and the
 IPC buffer page right after it.
 */
module ChildSpace {
  import opened Base
  import opened Machine
  import opened TaskSpace
  import opened AddressSpace
  import opened CopyLoop
  import opened Elf
  import opened Image
  import opened Tables

  /** Everything is in place for the image and the page after it. */
  ghost predicate Prepared(m: Machine, t: Task, fp: Range) {
    FootprintReady(m, t, fp) && t.mappedPage == map[] && ChainComplete(m, t.vspace, fp.end)
  }

  lemma TablesPrepare(m: Machine, t: Task, fp: Range)
    requires MachineOk(m) && TaskOk(m, t) && t.mappedPage == map[]
    requires forall u :: Wanted(m.spans, t.vspace, Range(fp.start, fp.end + PAGE_SIZE), u) ==> u in m.tables
    requires fp.start <= fp.end
    ensures Prepared(m, t, fp)
  {
    hide MachineOk, TaskOk, Wanted, ChainComplete;
    forall v | fp.start <= v <= fp.end ensures ChainComplete(m, t.vspace, v) {
      TablesComplete(m, t.vspace, Range(fp.start, fp.end + PAGE_SIZE), v);
    }
  }

  /** What the child's memory must be. */
  ghost predicate HoldsImage(m: Machine, t: Task, fp: Range, elf: seq<byte>, segs: seq<Segment>)
    requires ValidImage(elf, segs)
  {
    forall x :: fp.start <= x < fp.end ==> ByteAt(Memory(m, t), x) == Some(ImageByte(elf, segs, |segs|, x))
  }

  /** The page at `v` is there and zero. */
  ghost predicate ZeroFrom(m: Machine, t: Task, v: nat) {
    forall x :: v <= x < v + PAGE_SIZE ==> ByteAt(Memory(m, t), x) == Some(0)
  }

  lemma ImageLoaded(m: Machine, t: Task, fp: Range, elf: seq<byte>, segs: seq<Segment>, m2: Machine, t2: Task)
    requires ImagePre(fp, elf, segs) && Prepared(m, t, fp)
    requires (m2, t2) == ApplyAll(m, t, ImageEffects(fp.start, Frames(fp, elf, segs, |segs|)))
    ensures MachineOk(m2) && TaskOk(m2, t2) && t2.vspace == t.vspace
    ensures HoldsImage(m2, t2, fp, elf, segs) && ChainComplete(m2, t2.vspace, fp.end)
    ensures forall v :: v in t2.mappedPage <==> fp.start <= v < fp.end && v % PAGE_SIZE == 0
  {
    assert ValidImage(elf, segs);
    hide MachineOk, TaskOk, LocalTo, Memory, ApplyAll, ImageEffects, Frames, FootprintReady, ChainComplete,
         ByteAt, ImagePre,
         ValidImage;
    MapImageBytes(m, t, fp, elf, segs, 0);
    forall x | fp.start <= x < fp.end ensures ByteAt(Memory(m2, t2), x) == Some(ImageByte(elf, segs, |segs|, x)) {
      MapImageBytes(m, t, fp, elf, segs, x);
    }
    forall v: nat ensures v in t2.mappedPage <==> fp.start <= v < fp.end && v % PAGE_SIZE == 0 {
      MapImageIndex(m, t, fp, elf, segs, v);
    }
    LocalKeepsChain(m, m2, t.vspace, fp.end);
  }

  /** The IPC buffer is mapped directly, without the retry: its tables are there already. */
  method MapIpcBuffer(k: Kernel, task: Sel4Task, v: nat)
    requires MachineOk(k.m) && TaskOk(k.m, task.View()) && v % PAGE_SIZE == 0 && v !in task.mappedPage
    requires ChainComplete(k.m, task.vspace, v)
    modifies k, task
    ensures (k.m, task.View()) == Apply(old(k.m), old(task.View()), Fresh(v, ZeroPage()))
  {
    ghost var m0 := k.m;
    ApplyComplete(m0, task.View(), v, ZeroPage());
    CompleteMonotone(m0, AllocFrame(m0), task.vspace, v);
    FreeEntry(m0, task.View(), v);
    hide MachineOk, TaskOk, Apply, ChainComplete;
    FrameMapSucceeds(AllocFrame(m0), m0.next, task.vspace, v);
    var cap := k.m.next;
    k.m := AllocFrame(k.m);
    var (m1, mapped) := FrameMap(k.m, cap, task.vspace, v);
    assert mapped == Ok;
    k.m := m1;
    task.mappedPage := task.mappedPage[v := cap];
  }

  /** One more page is zero and leaves the bytes of the others as they are. */
  lemma NewPageKeepsBytes(m: Machine, t: Task, v: nat, m': Machine, t': Task)
    requires MachineOk(m) && TaskOk(m, t) && v % PAGE_SIZE == 0 && v !in t.mappedPage
    requires (m', t') == Apply(m, t, Fresh(v, ZeroPage()))
    ensures MachineOk(m') && TaskOk(m', t') && t'.mappedPage.Keys == t.mappedPage.Keys + {v}
    ensures forall x :: ByteAt(Memory(m', t'), x) == if PageOf(x) == v then Some(0) else ByteAt(Memory(m, t), x)
  {
    hide MachineOk, TaskOk, LocalTo, Memory, Apply, ByteAt;
    MemoryPages(m, t);
    EffectOk(m, t, Fresh(v, ZeroPage()));
    MemoryPages(m', t');
    NewBytes(Memory(m, t), v);
  }

  lemma NewBytes(pages: Pages, v: nat)
    ensures forall x :: ByteAt(pages[v := ZeroPage()], x) == if PageOf(x) == v then Some(0) else ByteAt(pages, x)
  {
  }

  /** The image stays when the page after it is mapped, and the index then ends with that page. */
  lemma IpcAfterImage(m: Machine, t: Task, fp: Range, elf: seq<byte>, segs: seq<Segment>, m': Machine, t': Task)
    requires MachineOk(m) && TaskOk(m, t) && ValidImage(elf, segs) && HoldsImage(m, t, fp, elf, segs)
    requires fp.end % PAGE_SIZE == 0 && fp.start <= fp.end
    requires forall v :: v in t.mappedPage <==> fp.start <= v < fp.end && v % PAGE_SIZE == 0
    requires (m', t') == Apply(m, t, Fresh(fp.end, ZeroPage()))
    ensures MachineOk(m') && TaskOk(m', t') && HoldsImage(m', t', fp, elf, segs) && ZeroFrom(m', t', fp.end)
    ensures forall v :: v in t'.mappedPage <==> v % PAGE_SIZE == 0 && fp.start <= v <= fp.end
  {
    hide MachineOk, TaskOk, Memory, Apply, ByteAt, ValidImage;
    NewPageKeepsBytes(m, t, fp.end, m', t');
    forall x | fp.start <= x < fp.end ensures ByteAt(Memory(m', t'), x) == Some(ImageByte(elf, segs, |segs|, x)) {
      assert PageOf(x) <= x;
    }
    forall x | fp.end <= x < fp.end + PAGE_SIZE ensures ByteAt(Memory(m', t'), x) == Some(0) {
      assert PageOf(x) == fp.end;
    }
  }

  method MakeChildVspace(k: Kernel, task: Sel4Task, elf: seq<byte>, segs: seq<Segment>) returns (ipc: nat)
    requires MachineOk(k.m) && TaskOk(k.m, task.View()) && task.mappedPage == map[]
    requires EmptyVspace(k.m, task.vspace) && segs != [] && ValidImage(elf, segs)
    modifies k, task
    ensures MachineOk(k.m) && TaskOk(k.m, task.View())
    ensures ipc == Footprint(segs).end
    ensures HoldsImage(k.m, task.View(), Footprint(segs), elf, segs) && ZeroFrom(k.m, task.View(), ipc)
    ensures forall v :: v in task.mappedPage <==> v % PAGE_SIZE == 0 && Footprint(segs).start <= v <= ipc
  {
    var fp := Footprint(segs);
    FootprintHolds(segs);
    ghost var m0, t0 := k.m, task.View();
    hide MachineOk, TaskOk, ApplyAll, Apply, ImageEffects, Frames, Memory, Wanted, EmptyVspace, ParentsFirst,
         ChainComplete,
         ValidImage, Footprint, ByteAt, Prepared;
    var log := MapIntermediateTables(k, task.vspace, Range(fp.start, fp.end + PAGE_SIZE));
    MoreTablesOk(m0, k.m, t0);
    TablesPrepare(k.m, t0, fp);
    ipc := LoadAndMapIpc(k, task, fp, elf, segs);
  }

  method LoadAndMapIpc(k: Kernel, task: Sel4Task, fp: Range, elf: seq<byte>, segs: seq<Segment>) returns (ipc: nat)
    requires ImagePre(fp, elf, segs) && Prepared(k.m, task.View(), fp)
    modifies k, task
    ensures MachineOk(k.m) && TaskOk(k.m, task.View())
    ensures ipc == fp.end && HoldsImage(k.m, task.View(), fp, elf, segs) && ZeroFrom(k.m, task.View(), ipc)
    ensures forall v :: v in task.mappedPage <==> v % PAGE_SIZE == 0 && fp.start <= v <= ipc
  {
    ghost var m0, t0 := k.m, task.View();
    assert fp.end % PAGE_SIZE == 0 && fp.start <= fp.end && ValidImage(elf, segs);
    hide MachineOk, TaskOk, ApplyAll, Apply, ImageEffects, Frames, Memory, ChainComplete, ImagePre, FootprintReady,
         ValidImage, ByteAt;
    MapImage(k, task, fp, elf, segs);
    ghost var m1, t1 := k.m, task.View();
    ImageLoaded(m0, t0, fp, elf, segs, m1, t1);
    ipc := fp.end;
    hide HoldsImage;
    MapIpcBuffer(k, task, ipc);
    IpcAfterImage(m1, t1, fp, elf, segs, k.m, task.View());
  }
}
