/**
 The copy loops that move bytes between the kernel thread and a task's memory, one page at a time,
 through a temporary capability in slot 0 mapped at the seat window.
 */
module CopyLoop {
  import opened Base
  import opened Machine
  import opened TaskSpace
  import opened AddressSpace
  import opened Window

  // ------------------------------------------------------------------ bytes of a memory

  type Pages = map<nat, Page>

  function ByteAt(pages: Pages, x: nat): Option<byte> {
    if PageOf(x) in pages then Some(pages[PageOf(x)][x % PAGE_SIZE]) else None
  }

  /** The contents of a page; a page that is not there counts as zero. */
  function Contents(pages: Pages, v: nat): Page {
    if v in pages then pages[v] else ZeroPage()
  }

  function ByteOrZero(pages: Pages, x: nat): byte {
    Contents(pages, PageOf(x))[x % PAGE_SIZE]
  }

  /** The length of the first chunk of `n` bytes at `a`: up to the end of the page. */
  function ChunkLen(a: nat, n: nat): (c: nat)
    ensures c <= n && (n > 0 ==> c > 0) && a % PAGE_SIZE + c <= PAGE_SIZE
  {
    if PAGE_SIZE - a % PAGE_SIZE < n then PAGE_SIZE - a % PAGE_SIZE else n
  }

  /** All bytes of a chunk lie in one page. */
  lemma ChunkInPage(a: nat, n: nat, x: nat)
    requires a <= x < a + ChunkLen(a, n)
    ensures PageOf(x) == PageOf(a) && x % PAGE_SIZE == a % PAGE_SIZE + (x - a)
  {
  }

  /** A chunk that is not the last one ends at a page boundary. */
  lemma ChunkTiles(a: nat, n: nat)
    requires ChunkLen(a, n) < n
    ensures (a + ChunkLen(a, n)) % PAGE_SIZE == 0
  {
  }

  /** How many bytes the loop handles before it meets an unmapped page. */
  function Reach(mapped: set<nat>, a: nat, n: nat): (r: nat)
    ensures r <= n
    decreases n
  {
    if n == 0 || PageOf(a) !in mapped then 0
    else var c := ChunkLen(a, n); c + Reach(mapped, a + c, n - c)
  }

  lemma ReachTurn(mapped: set<nat>, a: nat, n: nat)
    ensures n == 0 || PageOf(a) !in mapped ==> Reach(mapped, a, n) == 0
    ensures n > 0 && PageOf(a) in mapped ==>
              Reach(mapped, a, n) == ChunkLen(a, n) + Reach(mapped, a + ChunkLen(a, n), n - ChunkLen(a, n))
  {
  }

  predicate AllMapped(mapped: set<nat>, a: nat, n: nat) {
    forall x :: a <= x < a + n ==> PageOf(x) in mapped
  }

  /** Exactly the prefix before the first unmapped byte. */
  lemma {:induction false} ReachIsPrefix(mapped: set<nat>, a: nat, n: nat)
    ensures AllMapped(mapped, a, Reach(mapped, a, n))
    ensures Reach(mapped, a, n) < n ==> PageOf(a + Reach(mapped, a, n)) !in mapped
    decreases n
  {
    if n > 0 && PageOf(a) in mapped {
      var c := ChunkLen(a, n);
      ReachIsPrefix(mapped, a + c, n - c);
      forall x | a <= x < a + Reach(mapped, a, n) ensures PageOf(x) in mapped {
        if x < a + c { ChunkInPage(a, n, x); }
      }
    }
  }

  /** The loop gets through exactly when every byte is mapped. */
  lemma ReachAllIff(mapped: set<nat>, a: nat, n: nat)
    ensures Reach(mapped, a, n) == n <==> AllMapped(mapped, a, n)
  {
    ReachIsPrefix(mapped, a, n);
  }

  // ------------------------------------------------------------------ one page

  /** Store through the temporary capability: copy, map, write, unmap, delete; every call succeeds. */
  method StoreChunk(k: Kernel, c: nat, off: nat, data: seq<byte>)
    requires MachineOk(k.m) && c in k.m.caps && off < PAGE_SIZE && off + |data| <= PAGE_SIZE
    modifies k
    ensures k.m == Poke(old(k.m), c, off, data)
  {
    ghost var m0 := k.m;
    TempCopy(k.m, c);
    var (m1, copied) := CopyCap(k.m, TEMP_SLOT, c);
    assert copied == Ok;
    k.m := m1;
    OpenWindow(m1, TEMP_SLOT, m1.seat);
    var (m2, mapped) := FrameMap(k.m, TEMP_SLOT, INIT_VSPACE, k.m.seat);
    assert mapped == Ok;
    k.m := m2;
    WindowAddress(k.m.seat, off);
    k.m := Store(k.m, INIT_VSPACE, k.m.seat + off, data);
    CloseWindow(m1, TEMP_SLOT, m1.seat, k.m.frames);
    var (m3, unmapped) := FrameUnmap(k.m, TEMP_SLOT);
    assert unmapped == Ok;
    k.m := m3;
    var (m4, deleted) := DeleteCap(k.m, TEMP_SLOT);
    assert deleted == Ok;
    k.m := m4;
  }

  /** Load through the temporary capability; nothing of the machine changes. */
  method LoadChunk(k: Kernel, c: nat, off: nat, n: nat) returns (data: seq<byte>)
    requires MachineOk(k.m) && c in k.m.caps && off < PAGE_SIZE && off + n <= PAGE_SIZE
    modifies k
    ensures k.m == old(k.m)
    ensures data == old(k.m.frames)[c][off..off + n]
  {
    ghost var m0 := k.m;
    TempCopy(k.m, c);
    var (m1, copied) := CopyCap(k.m, TEMP_SLOT, c);
    assert copied == Ok;
    k.m := m1;
    OpenWindow(m1, TEMP_SLOT, m1.seat);
    var (m2, mapped) := FrameMap(k.m, TEMP_SLOT, INIT_VSPACE, k.m.seat);
    assert mapped == Ok;
    k.m := m2;
    WindowAddress(k.m.seat, off);
    data := Load(k.m, INIT_VSPACE, k.m.seat + off, n);
    CloseWindow(m1, TEMP_SLOT, m1.seat, k.m.frames);
    var (m3, unmapped) := FrameUnmap(k.m, TEMP_SLOT);
    assert unmapped == Ok;
    k.m := m3;
    var (m4, deleted) := DeleteCap(k.m, TEMP_SLOT);
    assert deleted == Ok;
    k.m := m4;
    assert k.m == m0;
  }

  // ------------------------------------------------------------------ writing

  function WritePages(pages: Pages, a: nat, data: seq<byte>): Pages
    decreases |data|
  {
    if data == [] || PageOf(a) !in pages then pages
    else
      var c := ChunkLen(a, |data|);
      WritePages(pages[PageOf(a) := Splice(pages[PageOf(a)], a % PAGE_SIZE, data[..c])], a + c, data[c..])
  }

  /** The memory after the first chunk of a write. */
  function FirstChunk(pages: Pages, a: nat, data: seq<byte>): Pages
    requires PageOf(a) in pages
  {
    pages[PageOf(a) := Splice(pages[PageOf(a)], a % PAGE_SIZE, data[..ChunkLen(a, |data|)])]
  }

  lemma WriteTurn(pages: Pages, a: nat, data: seq<byte>)
    requires data != [] && PageOf(a) in pages
    ensures FirstChunk(pages, a, data).Keys == pages.Keys
    ensures var c := ChunkLen(a, |data|);
            WritePages(pages, a, data) == WritePages(FirstChunk(pages, a, data), a + c, data[c..])
  {
  }

  lemma WriteNothing(pages: Pages, a: nat)
    ensures WritePages(pages, a, []) == pages
  {
  }

  lemma WriteStops(pages: Pages, a: nat, data: seq<byte>)
    requires PageOf(a) !in pages
    ensures WritePages(pages, a, data) == pages
  {
  }

  /** The bytes of the first chunk and of the rest are those of the whole. */
  lemma ChunkAndRest(data: seq<byte>, c: nat, r: nat, a: nat, x: nat, was: Option<byte>)
    requires c + r <= |data|
    ensures (if a + c <= x < a + c + r then Some(data[c..][x - (a + c)])
             else if a <= x < a + c then Some(data[x - a]) else was) ==
            if a <= x < a + (c + r) then Some(data[x - a]) else was
  {
  }

  /** Byte by byte: the prefix that is mapped is written, no other byte changes, no page comes or goes. */
  lemma {:induction false} WritePagesByte(pages: Pages, a: nat, data: seq<byte>, x: nat)
    ensures WritePages(pages, a, data).Keys == pages.Keys
    ensures ByteAt(WritePages(pages, a, data), x) ==
            if a <= x < a + Reach(pages.Keys, a, |data|) then Some(data[x - a]) else ByteAt(pages, x)
    decreases |data|
  {
    hide WritePages, Reach, FirstChunk, ByteAt, ChunkLen, PageOf;
    ReachTurn(pages.Keys, a, |data|);
    if data == [] {
      WriteNothing(pages, a);
    } else if PageOf(a) !in pages {
      WriteStops(pages, a, data);
    } else {
      var c := ChunkLen(a, |data|);
      WriteTurn(pages, a, data);
      ChunkByte(pages, a, data, x);
      WritePagesByte(FirstChunk(pages, a, data), a + c, data[c..], x);
      ChunkAndRest(data, c, Reach(pages.Keys, a + c, |data| - c), a, x, ByteAt(pages, x));
    }
  }

  lemma ChunkByte(pages: Pages, a: nat, data: seq<byte>, x: nat)
    requires data != [] && PageOf(a) in pages
    ensures ByteAt(FirstChunk(pages, a, data), x) ==
            if a <= x < a + ChunkLen(a, |data|) then Some(data[x - a]) else ByteAt(pages, x)
  {
    var c := ChunkLen(a, |data|);
    if a <= x < a + c { ChunkInPage(a, |data|, x); }
  }

  /** What the write loop does to the machine, and whether it gets through. */
  function WriteSpec(m: Machine, t: Task, a: nat, data: seq<byte>): (Machine, bool)
    decreases |data|
  {
    if data == [] then (m, true)
    else if PageOf(a) !in t.mappedPage || t.mappedPage[PageOf(a)] !in m.frames then (m, false)
    else
      var c := ChunkLen(a, |data|);
      WriteSpec(Poke(m, t.mappedPage[PageOf(a)], a % PAGE_SIZE, data[..c]), t, a + c, data[c..])
  }

  /** One chunk keeps the agreement and splices the chunk into the page. */
  lemma PokeOk(m: Machine, t: Task, v: nat, off: nat, data: seq<byte>)
    requires MachineOk(m) && TaskOk(m, t) && v in t.mappedPage && off + |data| <= PAGE_SIZE
    ensures var cap := t.mappedPage[v];
            && cap in m.caps && cap in m.frames
            && var m1 := Poke(m, cap, off, data);
            && MachineOk(m1) && TaskOk(m1, t) && LocalTo(m, m1, t.vspace)
            && v in Memory(m, t)
            && Memory(m1, t) == Memory(m, t)[v := Splice(Memory(m, t)[v], off, data)]
  {
    var cap := t.mappedPage[v];
    assert PageOk(m, t, v);
    var p := Splice(m.frames[cap], off, data);
    assert Apply(m, t, Refill(v, p)) == (Poke(m, cap, off, data), t);
    assert v in Memory(m, t) && Memory(m, t)[v] == m.frames[cap];
    hide MachineOk, TaskOk, LocalTo, Memory, PageOk, Apply, Poke, Splice;
    RefillOk(m, t, v, p);
  }

  /** The write loop refines `WritePages`, and only the task's own frames change. */
  lemma {:induction false} WriteSpecOk(m: Machine, t: Task, a: nat, data: seq<byte>)
    requires MachineOk(m) && TaskOk(m, t)
    ensures var (m', ok) := WriteSpec(m, t, a, data);
            && MachineOk(m') && TaskOk(m', t) && LocalTo(m, m', t.vspace)
            && Memory(m', t) == WritePages(Memory(m, t), a, data)
            && (ok <==> Reach(t.mappedPage.Keys, a, |data|) == |data|)
    decreases |data|
  {
    hide MachineOk, TaskOk, Memory, PageOk, LocalTo, ChunkLen, Splice, Poke;
    MemoryPages(m, t);
    LocalReflexive(m, t.vspace);
    if data != [] && PageOf(a) in t.mappedPage {
      var c := ChunkLen(a, |data|);
      PokeOk(m, t, PageOf(a), a % PAGE_SIZE, data[..c]);
      var m1 := Poke(m, t.mappedPage[PageOf(a)], a % PAGE_SIZE, data[..c]);
      WriteSpecOk(m1, t, a + c, data[c..]);
      LocalTransitive(m, m1, WriteSpec(m1, t, a + c, data[c..]).0, t.vspace);
    }
  }

  /** The loop of `process_item_list` with the writing callback. */
  method WriteLoop(k: Kernel, task: Sel4Task, addr: nat, buf: seq<byte>) returns (r: SysResult)
    requires MachineOk(k.m) && TaskOk(k.m, task.View())
    modifies k
    ensures (k.m, r == Done(|buf|)) == WriteSpec(old(k.m), task.View(), addr, buf)
    ensures r == Done(|buf|) || r == Fail(EFAULT)
  {
    hide MachineOk, TaskOk, Memory, PageOk, LocalTo, ChunkLen, Poke;
    var cur, rest := addr, buf;
    ghost var t0 := task.View();
    while rest != []
      invariant MachineOk(k.m) && TaskOk(k.m, t0)
      invariant cur + |rest| == addr + |buf|
      invariant WriteSpec(k.m, t0, cur, rest) == WriteSpec(old(k.m), t0, addr, buf)
      decreases |rest|
    {
      if PageOf(cur) in task.mappedPage {
        var c := ChunkLen(cur, |rest|);
        PokeOk(k.m, t0, PageOf(cur), cur % PAGE_SIZE, rest[..c]);
        StoreChunk(k, task.mappedPage[PageOf(cur)], cur % PAGE_SIZE, rest[..c]);
        rest := rest[c..];
        cur := cur + c;
      } else {
        return Fail(EFAULT);
      }
    }
    return Done(cur - addr);
  }

  /** `write_item_list` on bytes. */
  method WriteItemList(k: Kernel, task: Sel4Task, addr: nat, num: Option<nat>, buf: seq<byte>) returns (r: SysResult)
    requires MachineOk(k.m) && TaskOk(k.m, task.View())
    requires num.GetOr(1) <= |buf|
    modifies k
    ensures k.m == WriteSpec(old(k.m), task.View(), addr, buf[..num.GetOr(1)]).0
    ensures r == if AllMapped(task.mappedPage.Keys, addr, num.GetOr(1)) then Done(num.GetOr(1)) else Fail(EFAULT)
  {
    hide MachineOk, TaskOk, LocalTo, Memory, WriteSpec, WritePages, Reach, AllMapped;
    ReachAllIff(task.mappedPage.Keys, addr, num.GetOr(1));
    WriteSpecOk(k.m, task.View(), addr, buf[..num.GetOr(1)]);
    r := WriteLoop(k, task, addr, buf[..num.GetOr(1)]);
  }

  // ------------------------------------------------------------------ reading

  function ReadPages(pages: Pages, a: nat, n: nat): seq<byte>
    decreases n
  {
    if n == 0 || PageOf(a) !in pages then []
    else
      var c := ChunkLen(a, n);
      pages[PageOf(a)][a % PAGE_SIZE..a % PAGE_SIZE + c] + ReadPages(pages, a + c, n - c)
  }

  /** The bytes read are those of the mapped prefix, in order. */
  lemma {:induction false} ReadPagesByte(pages: Pages, a: nat, n: nat)
    ensures |ReadPages(pages, a, n)| == Reach(pages.Keys, a, n)
    ensures forall x :: a <= x < a + |ReadPages(pages, a, n)| ==>
              ByteAt(pages, x) == Some(ReadPages(pages, a, n)[x - a])
    decreases n
  {
    if n > 0 && PageOf(a) in pages {
      var c := ChunkLen(a, n);
      ReadPagesByte(pages, a + c, n - c);
      forall x | a <= x < a + |ReadPages(pages, a, n)|
        ensures ByteAt(pages, x) == Some(ReadPages(pages, a, n)[x - a])
      {
        if x < a + c { ChunkInPage(a, n, x); }
      }
    }
  }

  /** The page that backs an address of a task, as the load path sees it. */
  lemma PageOfTask(m: Machine, t: Task, v: nat)
    requires TaskOk(m, t) && v in t.mappedPage
    ensures t.mappedPage[v] in m.caps && t.mappedPage[v] in m.frames
    ensures v in Memory(m, t) && Memory(m, t)[v] == m.frames[t.mappedPage[v]]
  {
    assert PageOk(m, t, v);
  }

  /** Copy a chunk into the caller's buffer. */
  method ReadChunk(k: Kernel, cap: nat, pageOff: nat, n: nat, buf: array<byte>, off: nat)
    requires MachineOk(k.m) && cap in k.m.caps && cap in k.m.frames
    requires pageOff < PAGE_SIZE && pageOff + n <= PAGE_SIZE && off + n <= buf.Length
    modifies k, buf
    ensures k.m == old(k.m)
    ensures buf[..] == Splice(old(buf[..]), off, old(k.m.frames[cap][pageOff..pageOff + n]))
  {
    hide MachineOk;
    var data := LoadChunk(k, cap, pageOff, n);
    forall j | 0 <= j < n {
      buf[off + j] := data[j];
    }
  }

  /** `buf` with its first bytes replaced by `got`. */
  function Fronted(buf: seq<byte>, got: seq<byte>): seq<byte>
    requires |got| <= |buf|
  {
    got + buf[|got|..]
  }

  lemma FrontedNone(buf: seq<byte>)
    ensures Fronted(buf, []) == buf
  {
  }

  lemma FrontedGrows(buf: seq<byte>, got: seq<byte>, data: seq<byte>)
    requires |got| + |data| <= |buf|
    ensures Splice(Fronted(buf, got), |got|, data) == Fronted(buf, got + data)
  {
  }

  /** The reading loop with what it has read so far. */
  function ReadOn(pages: Pages, a: nat, n: nat, got: seq<byte>): seq<byte>
    decreases n
  {
    if n == 0 || PageOf(a) !in pages then got
    else
      var c := ChunkLen(a, n);
      ReadOn(pages, a + c, n - c, got + pages[PageOf(a)][a % PAGE_SIZE..a % PAGE_SIZE + c])
  }

  lemma {:induction false} ReadOnAppends(pages: Pages, a: nat, n: nat, got: seq<byte>)
    ensures ReadOn(pages, a, n, got) == got + ReadPages(pages, a, n)
    decreases n
  {
    if n == 0 || PageOf(a) !in pages {
      assert got + [] == got;
    } else {
      var c := ChunkLen(a, n);
      var data := pages[PageOf(a)][a % PAGE_SIZE..a % PAGE_SIZE + c];
      ReadOnAppends(pages, a + c, n - c, got + data);
      assert got + data + ReadPages(pages, a + c, n - c) == got + (data + ReadPages(pages, a + c, n - c));
    }
  }

  lemma ReadOnTurn(pages: Pages, a: nat, n: nat, got: seq<byte>)
    ensures n == 0 || PageOf(a) !in pages ==> ReadOn(pages, a, n, got) == got
    ensures n > 0 && PageOf(a) in pages ==>
              var c := ChunkLen(a, n);
              ReadOn(pages, a, n, got) ==
              ReadOn(pages, a + c, n - c, got + pages[PageOf(a)][a % PAGE_SIZE..a % PAGE_SIZE + c])
  {
  }

  lemma ReadOnIsRead(pages: Pages, a: nat, n: nat)
    ensures ReadOn(pages, a, n, []) == ReadPages(pages, a, n)
  {
    ReadOnAppends(pages, a, n, []);
    assert [] + ReadPages(pages, a, n) == ReadPages(pages, a, n);
  }

  /** One turn of the reading loop on a mapped page. */
  method ReadTurn(k: Kernel, task: Sel4Task, cur: nat, len: nat, buf: array<byte>, off: nat,
                  ghost mem: Pages, ghost got: seq<byte>, ghost buf0: seq<byte>) returns (c: nat, ghost got': seq<byte>)
    requires MachineOk(k.m) && TaskOk(k.m, task.View()) && mem == Memory(k.m, task.View())
    requires len > 0 && PageOf(cur) in task.mappedPage
    requires off == |got| && |buf0| == buf.Length && off + len <= buf.Length
    requires buf[..] == Fronted(buf0, got)
    modifies k, buf
    ensures k.m == old(k.m) && 0 < c <= len && |got'| == off + c && buf[..] == Fronted(buf0, got')
    ensures ReadOn(mem, cur + c, len - c, got') == ReadOn(mem, cur, len, got)
  {
    hide MachineOk, TaskOk, Memory, ChunkLen, Fronted, Splice, ReadOn;
    c := ChunkLen(cur, len);
    PageOfTask(k.m, task.View(), PageOf(cur));
    ReadOnTurn(mem, cur, len, got);
    ghost var data := mem[PageOf(cur)][cur % PAGE_SIZE..cur % PAGE_SIZE + c];
    FrontedGrows(buf0, got, data);
    ReadChunk(k, task.mappedPage[PageOf(cur)], cur % PAGE_SIZE, c, buf, off);
    got' := got + data;
  }

  /** The loop of `process_item_list` with the reading callback; the buffer is filled in place. */
  method ReadLoop(k: Kernel, task: Sel4Task, addr: nat, n: nat, buf: array<byte>) returns (r: SysResult)
    requires MachineOk(k.m) && TaskOk(k.m, task.View()) && n <= buf.Length
    modifies k, buf
    ensures k.m == old(k.m)
    ensures var got := ReadOn(Memory(old(k.m), task.View()), addr, n, []);
            && |got| <= n
            && buf[..] == Fronted(old(buf[..]), got)
            && r == if |got| == n then Done(n) else Fail(EFAULT)
  {
    hide MachineOk, TaskOk, Memory, LocalTo, ChunkLen, Fronted, Splice, ReadOn;
    ghost var mem, got, buf0 := Memory(k.m, task.View()), [], buf[..];
    FrontedNone(buf0);
    var len: nat, cur: nat := n, addr;
    MemoryPages(k.m, task.View());
    while len > 0
      invariant k.m == old(k.m) && cur == addr + |got| && len + |got| == n
      invariant ReadOn(mem, cur, len, got) == ReadOn(mem, addr, n, [])
      invariant buf[..] == Fronted(buf0, got)
    {
      if PageOf(cur) in task.mappedPage {
        var c;
        c, got := ReadTurn(k, task, cur, len, buf, cur - addr, mem, got, buf0);
        len := len - c;
        cur := cur + c;
      } else {
        ReadOnTurn(mem, cur, len, got);
        return Fail(EFAULT);
      }
    }
    ReadOnTurn(mem, cur, 0, got);
    return Done(cur - addr);
  }

  /** `read_item_list` on bytes. */
  method ReadItemList(k: Kernel, task: Sel4Task, addr: nat, num: Option<nat>, buf: array<byte>) returns (r: SysResult)
    requires MachineOk(k.m) && TaskOk(k.m, task.View()) && num.GetOr(1) <= buf.Length
    modifies k, buf
    ensures k.m == old(k.m)
    ensures var got := ReadPages(Memory(old(k.m), task.View()), addr, num.GetOr(1));
            |got| <= num.GetOr(1) && buf[..] == Fronted(old(buf[..]), got)
    ensures r == if AllMapped(task.mappedPage.Keys, addr, num.GetOr(1)) then Done(num.GetOr(1)) else Fail(EFAULT)
  {
    hide MachineOk, TaskOk, Memory, ReadPages, ReadOn, Reach, AllMapped, Fronted;
    MemoryPages(k.m, task.View());
    ReadOnIsRead(Memory(k.m, task.View()), addr, num.GetOr(1));
    ReadPagesByte(Memory(k.m, task.View()), addr, num.GetOr(1));
    ReachAllIff(task.mappedPage.Keys, addr, num.GetOr(1));
    r := ReadLoop(k, task, addr, num.GetOr(1), buf);
  }

  /** Writing bytes and reading the same range back returns them. */
  lemma WriteThenRead(pages: Pages, a: nat, data: seq<byte>)
    requires AllMapped(pages.Keys, a, |data|)
    ensures ReadPages(WritePages(pages, a, data), a, |data|) == data
  {
    var pages' := WritePages(pages, a, data);
    ReachAllIff(pages.Keys, a, |data|);
    ReadPagesByte(pages', a, |data|);
    WritePagesByte(pages, a, data, a);
    forall i | 0 <= i < |data| ensures ReadPages(pages', a, |data|)[i] == data[i] {
      WritePagesByte(pages, a, data, a + i);
      assert ByteAt(pages', a + i) == Some(ReadPages(pages', a, |data|)[i]);
    }
  }

  /** A write to task `i` keeps the system in order and changes no byte of any task but those written. */
  lemma WriteChangesOnly(s: System, i: nat, a: nat, data: seq<byte>, j: nat, x: nat)
    requires SystemOk(s) && i in s.tasks && j in s.tasks
    ensures var m' := WriteSpec(s.m, s.tasks[i], a, data).0;
            && SystemOk(System(m', s.tasks))
            && ByteAt(Memory(m', s.tasks[j]), x) ==
               if i == j && a <= x < a + Reach(s.tasks[i].mappedPage.Keys, a, |data|)
               then Some(data[x - a]) else ByteAt(Memory(s.m, s.tasks[j]), x)
  {
    var m' := WriteSpec(s.m, s.tasks[i], a, data).0;
    hide SystemOk, MachineOk, TaskOk, Memory, LocalTo, WriteSpec, WritePages, Reach, ByteAt;
    TaskInOrder(s, i);
    WriteSpecOk(s.m, s.tasks[i], a, data);
    MemoryPages(s.m, s.tasks[i]);
    WritePagesByte(Memory(s.m, s.tasks[i]), a, data, x);
    SystemKept(s, i, m', s.tasks[i]);
  }
}
