/**
 The paged output loop of `sys_write`.  It skips nothing and has no way out of an unmapped page: it
 finishes exactly when every byte is mapped.
 */
module Output {
  import opened Base
  import opened Machine
  import opened TaskSpace
  import opened AddressSpace
  import opened CopyLoop

  const STDOUT_FD: int := 1
  const STDERR_FD: int := 2

  /** The loop's variables: what is left to print and what has been printed. */
  datatype Progress = Progress(addr: nat, count: nat, out: seq<byte>)

  /** One turn of the loop; a turn that meets an unmapped page changes nothing. */
  function Turn(pages: Pages, p: Progress): Progress {
    if p.count == 0 || PageOf(p.addr) !in pages then p
    else
      var c, off := ChunkLen(p.addr, p.count), p.addr % PAGE_SIZE;
      Progress(p.addr + c, p.count - c, p.out + pages[PageOf(p.addr)][off..off + c])
  }

  function Turns(pages: Pages, p: Progress, n: nat): Progress
    decreases n
  {
    if n == 0 then p else Turns(pages, Turn(pages, p), n - 1)
  }

  /** No number of turns ends the loop when some byte is unmapped. */
  lemma {:induction false} StuckForever(pages: Pages, p: Progress, n: nat)
    requires Reach(pages.Keys, p.addr, p.count) < p.count
    ensures Turns(pages, p, n).count > 0
    decreases n
  {
    if n > 0 {
      StuckForever(pages, Turn(pages, p), n - 1);
    }
  }

  /** Turns enough end the loop when all bytes are mapped, and then the output is those bytes. */
  lemma {:induction false} Finishes(pages: Pages, p: Progress) returns (n: nat)
    requires Reach(pages.Keys, p.addr, p.count) == p.count
    ensures Turns(pages, p, n) == Progress(p.addr + p.count, 0, p.out + ReadPages(pages, p.addr, p.count))
    decreases p.count
  {
    if p.count == 0 {
      n := 0;
    } else {
      var p1 := Turn(pages, p);
      var rest := Finishes(pages, p1);
      n := rest + 1;
      assert p1.out + ReadPages(pages, p1.addr, p1.count) == p.out + ReadPages(pages, p.addr, p.count);
    }
  }

  ghost predicate EndsAfter(pages: Pages, p: Progress, n: nat) {
    Turns(pages, p, n).count == 0
  }

  /** `sys_write` terminates if and only if every byte of the buffer lies in a mapped page. */
  lemma TerminatesIff(pages: Pages, addr: nat, count: nat)
    ensures (exists n :: EndsAfter(pages, Progress(addr, count, []), n)) <==> AllMapped(pages.Keys, addr, count)
  {
    var p := Progress(addr, count, []);
    ReachAllIff(pages.Keys, addr, count);
    if AllMapped(pages.Keys, addr, count) {
      var n := Finishes(pages, p);
      assert EndsAfter(pages, p, n);
    } else {
      forall n: nat ensures !EndsAfter(pages, p, n) {
        StuckForever(pages, p, n);
      }
    }
  }

  /** One byte in a page that is not there: no number of turns ends the loop. */
  lemma UnmappedNeverEnds(n: nat)
    ensures !EndsAfter(map[], Progress(0x5000, 1, []), n)
  {
    StuckForever(map[], Progress(0x5000, 1, []), n);
  }

  method PrintLoop(k: Kernel, task: Sel4Task, addr: nat, n: nat) returns (payload: nat, out: seq<byte>)
    requires MachineOk(k.m) && TaskOk(k.m, task.View())
    requires Reach(task.mappedPage.Keys, addr, n) == n
    modifies k
    ensures k.m == old(k.m)
    ensures payload == n && out == ReadOn(Memory(old(k.m), task.View()), addr, n, [])
  {
    hide MachineOk, TaskOk, Memory, LocalTo, ChunkLen, Reach;
    payload, out := 0, [];
    var cur: nat, count: nat := addr, n;
    ghost var mem := Memory(k.m, task.View());
    MemoryPages(k.m, task.View());
    while count > 0
      invariant k.m == old(k.m) && cur == addr + payload && payload + count == n
      invariant Reach(task.mappedPage.Keys, cur, count) == count
      invariant ReadOn(mem, cur, count, out) == ReadOn(mem, addr, n, [])
    {
      ReachTurn(task.mappedPage.Keys, cur, count);
      var c := ChunkLen(cur, count);
      PageOfTask(k.m, task.View(), PageOf(cur));
      var bytes := LoadChunk(k, task.mappedPage[PageOf(cur)], cur % PAGE_SIZE, c);
      out := out + bytes;
      count := count - c;
      cur := cur + c;
      payload := payload + c;
    }
  }

  /** `sys_write` prints exactly the task's bytes, in order, and leaves the machine as it was. */
  method SysWrite(k: Kernel, task: Sel4Task, fd: int, addr: nat, n: nat) returns (r: SysResult, out: seq<byte>)
    requires MachineOk(k.m) && TaskOk(k.m, task.View())
    requires fd == 1 || fd == 2 ==> AllMapped(task.mappedPage.Keys, addr, n)
    modifies k
    ensures k.m == old(k.m)
    ensures if fd != 1 && fd != 2
            then r == Fail(ENOSYS) && out == []
            else r == Done(n) && out == ReadPages(Memory(old(k.m), task.View()), addr, n)
  {
    hide MachineOk, TaskOk, Memory, ReadPages, ReadOn, Reach, AllMapped;
    if fd != STDOUT_FD && fd != STDERR_FD {
      return Fail(ENOSYS), [];
    }
    ReachAllIff(task.mappedPage.Keys, addr, n);
    ReadOnIsRead(Memory(k.m, task.View()), addr, n);
    var payload;
    payload, out := PrintLoop(k, task, addr, n);
    r := Done(payload);
  }
}
