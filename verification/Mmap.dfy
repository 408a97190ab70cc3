/**
 Free-area search, mmap and munmap.
 */
module Mmap {
  import opened Base
  import opened Ordering
  import opened Machine
  import opened TaskSpace
  import opened AddressSpace
  import opened CopyLoop

  const USPACE_BASE: nat := 0x1000

  // ------------------------------------------------------------------ find_free_area

  /** The scan over the keys from position `i` on. */
  function FreeFrom(keys: seq<nat>, i: nat, last: nat, size: nat): nat
    requires i <= |keys|
    decreases |keys| - i
  {
    if i == |keys| || last + size <= keys[i] then last
    else FreeFrom(keys, i + 1, keys[i] + PAGE_SIZE, size)
  }

  function FreeAreaIn(mapped: set<nat>, start: nat, size: nat): nat {
    FreeFrom(Ordered(mapped), 0, Hint(start), size)
  }

  function FreeArea(t: Task, start: nat, size: nat): nat {
    FreeAreaIn(t.mappedPage.Keys, start, size)
  }

  method FindFreeArea(task: Sel4Task, start: nat, size: nat) returns (r: Option<nat>)
    ensures r == Some(FreeArea(task.View(), start, size))
  {
    var last: nat := if start < USPACE_BASE then USPACE_BASE else start;
    var keys := Ordered(task.mappedPage.Keys);
    for i := 0 to |keys|
      invariant FreeFrom(keys, i, last, size) == FreeArea(task.View(), start, size)
    {
      if last + size <= keys[i] {
        return Some(last);
      }
      last := keys[i] + PAGE_SIZE;
    }
    return Some(last);
  }

  /** The page-rounded cover of a byte range. */
  function CoverLo(start: nat): nat { RoundDown(start, PAGE_SIZE) }
  function CoverHi(start: nat, size: nat): nat { RoundUp(start + size, PAGE_SIZE) }

  ghost predicate CoverMisses(start: nat, size: nat, v: nat) {
    v < CoverLo(start) || CoverHi(start, size) <= v
  }

  /** The scan keeps every key it has passed below the candidate, so the area it settles on is free. */
  lemma {:induction false} FreeFromMisses(keys: seq<nat>, i: nat, last: nat, size: nat, j: nat)
    requires AlignedPages(keys) && i <= |keys| && j < |keys|
    requires i <= j || (last % PAGE_SIZE == 0 && keys[j] + PAGE_SIZE <= last)
    ensures CoverMisses(FreeFrom(keys, i, last, size), size, keys[j])
    decreases |keys| - i
  {
    hide CoverMisses;
    if i == |keys| {
      StopMisses(last, RoundUp(last + size, PAGE_SIZE), size, keys[j]);
    } else if last + size <= keys[i] {
      StopMisses(last, keys[i], size, keys[j]);
    } else {
      FreeFromMisses(keys, i + 1, keys[i] + PAGE_SIZE, size, j);
    }
  }

  /** An area that ends at or below an aligned address has its cover end there too. */
  lemma StopMisses(last: nat, key: nat, size: nat, v: nat)
    requires key % PAGE_SIZE == 0 && v % PAGE_SIZE == 0 && last + size <= key
    requires key <= v || (last % PAGE_SIZE == 0 && v + PAGE_SIZE <= last)
    ensures CoverMisses(last, size, v)
  {
  }

  /** The area found is at or above the base of user space and no page of its cover is mapped. */
  lemma FreeAreaIsFree(m: Machine, t: Task, start: nat, size: nat)
    requires TaskOk(m, t)
    ensures FreeArea(t, start, size) >= 0x1000
    ensures forall v :: v in t.mappedPage ==> CoverMisses(FreeArea(t, start, size), size, v)
  {
    var keys := Ordered(t.mappedPage.Keys);
    var last := Hint(start);
    forall i | 0 <= i < |keys| ensures keys[i] % PAGE_SIZE == 0 {
      assert keys[i] in Elements(keys);
      assert PageOk(m, t, keys[i]);
    }
    assert AlignedPages(keys);
    forall v | v in t.mappedPage ensures CoverMisses(FreeArea(t, start, size), size, v) {
      assert v in Elements(keys);
      var j :| 0 <= j < |keys| && keys[j] == v;
      FreeFromMisses(keys, 0, last, size, j);
    }
    FreeFromLow(keys, 0, last, size);
  }

  lemma {:induction false} FreeFromLow(keys: seq<nat>, i: nat, last: nat, size: nat)
    requires last >= USPACE_BASE && i <= |keys|
    ensures FreeFrom(keys, i, last, size) >= USPACE_BASE
    decreases |keys| - i
  {
    if i < |keys| && last + size > keys[i] {
      FreeFromLow(keys, i + 1, keys[i] + PAGE_SIZE, size);
    }
  }

  // ------------------------------------------------------------------ areas below the hint

  function Hint(start: nat): nat {
    if start < USPACE_BASE then USPACE_BASE else start
  }

  /** After mapped page `k` there is room for `size` bytes before the next mapped page, if there is one. */
  ghost predicate RoomAfter(mapped: set<nat>, k: nat, size: nat) {
    k in mapped && forall j :: j in mapped && j > k ==> k + PAGE_SIZE + size <= j
  }

  ghost predicate RoomAt(keys: seq<nat>, j: nat, size: nat) {
    j < |keys| && (j + 1 < |keys| ==> keys[j] + PAGE_SIZE + size <= keys[j + 1])
  }

  /** From key `i` on, a page that ends below the hint and has room behind it. */
  ghost predicate RoomFrom(keys: seq<nat>, i: nat, size: nat, hint: nat) {
    exists j :: i <= j < |keys| && RoomAt(keys, j, size) && keys[j] + PAGE_SIZE < hint
  }

  ghost predicate RoomBelow(mapped: set<nat>, size: nat, hint: nat) {
    exists k: nat :: RoomAfter(mapped, k, size) && k + PAGE_SIZE < hint
  }

  /** Once the scan has left the hint it stops after the first page with room behind it. */
  lemma {:induction false} FreeFromBelow(keys: seq<nat>, i: nat, size: nat, hint: nat)
    requires Ascending(keys) && i < |keys|
    ensures FreeFrom(keys, i + 1, keys[i] + PAGE_SIZE, size) < hint <==> RoomFrom(keys, i, size, hint)
    decreases |keys| - i
  {
    if RoomAt(keys, i, size) {
      RoomHere(keys, i, size, hint);
    } else {
      FreeFromBelow(keys, i + 1, size, hint);
      RoomLater(keys, i, size, hint);
      hide RoomFrom;
    }
  }

  lemma RoomHere(keys: seq<nat>, i: nat, size: nat, hint: nat)
    requires Ascending(keys) && i < |keys| && RoomAt(keys, i, size)
    ensures RoomFrom(keys, i, size, hint) <==> keys[i] + PAGE_SIZE < hint
  {
    forall j | i <= j < |keys| ensures keys[i] <= keys[j] {}
  }

  lemma RoomLater(keys: seq<nat>, i: nat, size: nat, hint: nat)
    requires !RoomAt(keys, i, size)
    ensures RoomFrom(keys, i, size, hint) <==> RoomFrom(keys, i + 1, size, hint)
  {
    if RoomFrom(keys, i, size, hint) {
      var j :| i <= j < |keys| && RoomAt(keys, j, size) && keys[j] + PAGE_SIZE < hint;
      assert i + 1 <= j;
    }
    hide RoomAt;
  }

  lemma FreeFromHint(keys: seq<nat>, size: nat, hint: nat)
    requires Ascending(keys)
    ensures FreeFrom(keys, 0, hint, size) < hint <==> RoomFrom(keys, 0, size, hint)
  {
    if keys != [] {
      if hint + size > keys[0] {
        FreeFromBelow(keys, 0, size, hint);
        hide RoomFrom;
      } else {
        forall j | 0 <= j < |keys| ensures hint <= keys[j] {}
      }
    }
  }

  lemma RoomAtIsRoomAfter(mapped: set<nat>, keys: seq<nat>, j: nat, size: nat)
    requires Ascending(keys) && Elements(keys) == mapped && j < |keys|
    ensures RoomAt(keys, j, size) <==> RoomAfter(mapped, keys[j], size)
  {
    InElements(keys);
    if j + 1 < |keys| { assert keys[j + 1] in mapped; }
  }

  lemma RoomFromIsRoomBelow(mapped: set<nat>, keys: seq<nat>, size: nat, hint: nat)
    requires Ascending(keys) && Elements(keys) == mapped
    ensures RoomFrom(keys, 0, size, hint) <==> RoomBelow(mapped, size, hint)
  {
    InElements(keys);
    if RoomFrom(keys, 0, size, hint) {
      var j :| 0 <= j < |keys| && RoomAt(keys, j, size) && keys[j] + PAGE_SIZE < hint;
      RoomAtIsRoomAfter(mapped, keys, j, size);
    }
    if RoomBelow(mapped, size, hint) {
      var k: nat :| RoomAfter(mapped, k, size) && k + PAGE_SIZE < hint;
      assert k in keys;
      var j :| 0 <= j < |keys| && keys[j] == k;
      RoomAtIsRoomAfter(mapped, keys, j, size);
    }
  }

  /**
   The area lies below the hint exactly when some mapped page ends below the hint and has room behind
   it before the next mapped page.
   */
  lemma FreeAreaBelowHint(t: Task, start: nat, size: nat)
    ensures FreeArea(t, start, size) < Hint(start) <==> RoomBelow(t.mappedPage.Keys, size, Hint(start))
  {
    hide FreeFrom, RoomFrom, RoomBelow, Hint;
    FreeFromHint(Ordered(t.mappedPage.Keys), size, Hint(start));
    RoomFromIsRoomBelow(t.mappedPage.Keys, Ordered(t.mappedPage.Keys), size, Hint(start));
  }

  /** Past the hint the scan stops at the first key with room behind it. */
  lemma {:induction false} FirstRoom(keys: seq<nat>, i: nat, size: nat) returns (j: nat)
    requires i < |keys|
    ensures i <= j < |keys| && RoomAt(keys, j, size)
    ensures FreeFrom(keys, i + 1, keys[i] + PAGE_SIZE, size) == keys[j] + PAGE_SIZE
    ensures forall l :: i <= l < j ==> !RoomAt(keys, l, size)
    decreases |keys| - i
  {
    if RoomAt(keys, i, size) {
      j := i;
    } else {
      j := FirstRoom(keys, i + 1, size);
    }
  }

  /** Page `k` is the first with room behind it. */
  ghost predicate FirstWithRoom(mapped: set<nat>, k: nat, size: nat) {
    RoomAfter(mapped, k, size) && forall j :: j in mapped && j < k ==> !RoomAfter(mapped, j, size)
  }

  lemma FirstInOrder(mapped: set<nat>, keys: seq<nat>, j: nat, size: nat)
    requires Ascending(keys) && Elements(keys) == mapped && j < |keys| && RoomAt(keys, j, size)
    requires forall l :: 0 <= l < j ==> !RoomAt(keys, l, size)
    ensures FirstWithRoom(mapped, keys[j], size)
  {
    InElements(keys);
    RoomAtIsRoomAfter(mapped, keys, j, size);
    forall v | v in mapped && v < keys[j] ensures !RoomAfter(mapped, v, size) {
      assert v in keys;
      var l :| 0 <= l < |keys| && keys[l] == v;
      RoomAtIsRoomAfter(mapped, keys, l, size);
    }
  }

  lemma FirstTurn(keys: seq<nat>, last: nat, size: nat)
    ensures keys == [] || last + size <= keys[0] ==> FreeFrom(keys, 0, last, size) == last
    ensures keys != [] && last + size > keys[0] ==>
              FreeFrom(keys, 0, last, size) == FreeFrom(keys, 1, keys[0] + PAGE_SIZE, size)
  {
  }

  lemma AllAbove(mapped: set<nat>, keys: seq<nat>, x: nat)
    requires Ascending(keys) && Elements(keys) == mapped
    ensures (forall k :: k in mapped ==> x <= k) <==> keys == [] || x <= keys[0]
  {
    InElements(keys);
    if keys != [] {
      assert keys[0] in mapped;
      forall k | k in mapped ensures keys[0] <= k { assert k in keys; }
    } else {
      forall k ensures k !in mapped { assert k !in keys; }
    }
  }

  lemma FitsOrFollows(mapped: set<nat>, keys: seq<nat>, h: nat, size: nat) returns (k: nat)
    requires Ascending(keys) && Elements(keys) == mapped
    ensures if forall v :: v in mapped ==> h + size <= v then FreeFrom(keys, 0, h, size) == h
            else FirstWithRoom(mapped, k, size) && FreeFrom(keys, 0, h, size) == k + PAGE_SIZE
  {
    AllAbove(mapped, keys, h + size);
    FirstTurn(keys, h, size);
    k := 0;
    if keys != [] && h + size > keys[0] {
      var j := FirstRoom(keys, 0, size);
      FirstInOrder(mapped, keys, j, size);
      k := keys[j];
    }
    hide *;
  }

  /** First fit: the hint if it fits below every mapped page, else right behind the first mapped page with room. */
  lemma FirstFit(t: Task, start: nat, size: nat) returns (k: nat)
    ensures var h, mapped := if start < 0x1000 then 0x1000 else start, t.mappedPage.Keys;
            if forall v :: v in mapped ==> h + size <= v then FreeArea(t, start, size) == h
            else FirstWithRoom(mapped, k, size) && FreeArea(t, start, size) == k + PAGE_SIZE
  {
    k := FitsOrFollows(t.mappedPage.Keys, Ordered(t.mappedPage.Keys), Hint(start), size);
    hide FirstWithRoom, FreeFrom, Ordered, Ascending;
  }

  /** A request for 0x10000 is given 0x6000, behind the only mapped page. */
  lemma BelowHintExample(c: nat)
    ensures FreeArea(Task(7, map[0x5000 := c], []), 0x10000, 0x1000) == 0x6000
  {
    var keys := Ordered({0x5000});
    assert map[0x5000 := c].Keys == {0x5000};
    OnlyKey(keys, 0x5000);
  }

  lemma FirstKeysDiffer(keys: seq<nat>)
    requires Ascending(keys) && |keys| > 1
    ensures keys[0] < keys[1]
  {
  }

  lemma OnlyKey(keys: seq<nat>, k: nat)
    requires Ascending(keys) && Elements(keys) == {k}
    ensures keys == [k]
  {
    InElements(keys);
    assert k in keys;
    forall i | 0 <= i < |keys| ensures keys[i] == k { assert keys[i] in keys; }
    if |keys| > 1 {
      FirstKeysDiffer(keys);
      assert false;
    }
  }

  // ------------------------------------------------------------------ sys_mmap, sys_unmap

  function Cover(start: nat, size: nat): seq<nat> {
    PagesBetween(CoverLo(start), CoverHi(start, size))
  }

  lemma CoverAligned(start: nat, size: nat)
    ensures AlignedPages(Cover(start, size))
  {
    var lo, ps := CoverLo(start), Cover(start, size);
    hide RoundDown, RoundUp;
    forall i | 0 <= i < |ps| ensures ps[i] % PAGE_SIZE == 0 { assert ps[i] == lo + i * PAGE_SIZE; }
    forall i, j | 0 <= i < j < |ps| ensures ps[i] < ps[j] {
      assert ps[i] == lo + i * PAGE_SIZE && ps[j] == lo + j * PAGE_SIZE;
    }
  }

  lemma CoverIff(start: nat, size: nat, v: nat)
    ensures v in Cover(start, size) <==> v % PAGE_SIZE == 0 && !CoverMisses(start, size, v)
  {
    var lo, ps := CoverLo(start), Cover(start, size);
    if v % PAGE_SIZE == 0 && !CoverMisses(start, size, v) {
      assert ps[(v - lo) / PAGE_SIZE] == v;
    }
  }

  /** A page that holds a byte of the range, or the page of an unaligned empty range. */
  predicate Meets(v: nat, start: nat, size: nat) {
    v % PAGE_SIZE == 0 && v < start + size && start < v + PAGE_SIZE
  }

  /** The cover is exactly the pages that the range meets. */
  lemma CoverMeets(start: nat, size: nat, v: nat)
    ensures v in Cover(start, size) <==> Meets(v, start, size)
  {
    CoverIff(start, size, v);
    hide Cover;
    var e := start + size;
    if v % PAGE_SIZE == 0 {
      AlignedBelow(v, e);
      AlignedAbove(v, start);
    }
  }

  lemma AlignedBelow(v: nat, e: nat)
    requires v % PAGE_SIZE == 0
    ensures v < RoundUp(e, PAGE_SIZE) <==> v < e
  {
  }

  lemma AlignedAbove(v: nat, a: nat)
    requires v % PAGE_SIZE == 0
    ensures RoundDown(a, PAGE_SIZE) <= v <==> a < v + PAGE_SIZE
  {
  }

  /** Pages that are already mapped are skipped; each other page gets a new, zeroed frame. */
  function MapEffects(mapped: set<nat>, ps: seq<nat>): seq<Effect> {
    if ps == [] then []
    else
      var pre, v := MapEffects(mapped, ps[..|ps| - 1]), ps[|ps| - 1];
      if v in mapped then pre else pre + [Fresh(v, ZeroPage())]
  }

  function UnmapEffects(mapped: set<nat>, ps: seq<nat>): seq<Effect> {
    if ps == [] then []
    else
      var pre, v := UnmapEffects(mapped, ps[..|ps| - 1]), ps[|ps| - 1];
      if v in mapped then pre + [Discard(v)] else pre
  }

  function ZeroPages(ps: seq<nat>): map<nat, Page> {
    map v | v in ps :: ZeroPage()
  }

  lemma ZeroPagesKeys(ps: seq<nat>)
    ensures ZeroPages(ps).Keys == Elements(ps)
  {
  }

  lemma ZeroPagesSnoc(ps: seq<nat>, v: nat)
    ensures ZeroPages(ps + [v]) == ZeroPages(ps)[v := ZeroPage()]
  {
  }

  lemma OverlayUpdate<T>(a: map<nat, T>, b: map<nat, T>, v: nat, x: T)
    ensures a[v := x] + b == if v in b then a + b else (a + b)[v := x]
  {
  }

  lemma MapEffectsSnoc(mapped: set<nat>, ps: seq<nat>, v: nat)
    ensures MapEffects(mapped, ps + [v]) ==
            if v in mapped then MapEffects(mapped, ps) else MapEffects(mapped, ps) + [Fresh(v, ZeroPage())]
  {
    assert (ps + [v])[..|ps|] == ps;
  }

  lemma MapMemoryStep(pages: map<nat, Page>, ps: seq<nat>, v: nat)
    requires AllEnabledOn(pages, MapEffects(pages.Keys, ps)) && v !in ps && v % PAGE_SIZE == 0
    requires SimpleAll(pages, MapEffects(pages.Keys, ps)) == ZeroPages(ps) + pages
    ensures AllEnabledOn(pages, MapEffects(pages.Keys, ps + [v]))
    ensures SimpleAll(pages, MapEffects(pages.Keys, ps + [v])) == ZeroPages(ps + [v]) + pages
  {
    MapEffectsSnoc(pages.Keys, ps, v);
    ZeroPagesSnoc(ps, v);
    OverlayUpdate(ZeroPages(ps), pages, v, ZeroPage());
    SimpleSnoc(pages, MapEffects(pages.Keys, ps), Fresh(v, ZeroPage()));
  }

  /** mmap as a whole: the old pages untouched, every other page of the range zeroed. */
  lemma {:induction false} MapEffectsMemory(pages: map<nat, Page>, ps: seq<nat>)
    requires AlignedPages(ps)
    ensures AllEnabledOn(pages, MapEffects(pages.Keys, ps))
    ensures SimpleAll(pages, MapEffects(pages.Keys, ps)) == ZeroPages(ps) + pages
    decreases |ps|
  {
    if ps != [] {
      var pre, v := ps[..|ps| - 1], ps[|ps| - 1];
      assert ps == pre + [v];
      MapEffectsMemory(pages, pre);
      MapMemoryStep(pages, pre, v);
    } else {
      assert ZeroPages([]) + pages == pages;
    }
  }

  lemma UnmapEffectsSnoc(mapped: set<nat>, ps: seq<nat>, v: nat)
    ensures UnmapEffects(mapped, ps + [v]) ==
            if v in mapped then UnmapEffects(mapped, ps) + [Discard(v)] else UnmapEffects(mapped, ps)
  {
    assert (ps + [v])[..|ps|] == ps;
  }

  lemma MinusSnoc<T>(pages: map<nat, T>, ps: seq<nat>, v: nat)
    ensures pages - Elements(ps + [v]) == (pages - Elements(ps)) - {v}
    ensures v !in pages ==> pages - Elements(ps + [v]) == pages - Elements(ps)
    ensures v in pages && v !in ps ==> v in pages - Elements(ps)
  {
    assert Elements(ps + [v]) == Elements(ps) + {v};
  }

  lemma UnmapMemoryStep(pages: map<nat, Page>, ps: seq<nat>, v: nat)
    requires AllEnabledOn(pages, UnmapEffects(pages.Keys, ps)) && v !in ps
    requires SimpleAll(pages, UnmapEffects(pages.Keys, ps)) == pages - Elements(ps)
    ensures AllEnabledOn(pages, UnmapEffects(pages.Keys, ps + [v]))
    ensures SimpleAll(pages, UnmapEffects(pages.Keys, ps + [v])) == pages - Elements(ps + [v])
  {
    hide UnmapEffects, Elements, SimpleAll, AllEnabledOn;
    UnmapEffectsSnoc(pages.Keys, ps, v);
    MinusSnoc(pages, ps, v);
    SimpleSnoc(pages, UnmapEffects(pages.Keys, ps), Discard(v));
  }

  /** munmap as a whole: the pages of the range are gone, the others untouched. */
  lemma {:induction false} UnmapEffectsMemory(pages: map<nat, Page>, ps: seq<nat>)
    requires AlignedPages(ps)
    ensures AllEnabledOn(pages, UnmapEffects(pages.Keys, ps))
    ensures SimpleAll(pages, UnmapEffects(pages.Keys, ps)) == pages - Elements(ps)
    decreases |ps|
  {
    if ps != [] {
      var pre, v := ps[..|ps| - 1], ps[|ps| - 1];
      assert ps == pre + [v];
      UnmapEffectsMemory(pages, pre);
      UnmapMemoryStep(pages, pre, v);
    }
  }

  // ------------------------------------------------------------------ the system calls

  const KNOWN_PROT: bv32 := 0x7
  const KNOWN_FLAGS: bv32 := 0x24033
  const MAP_FIXED: bv32 := 0x10

  /** Unknown protection or flag bits are refused; otherwise, whether MAP_FIXED was asked for. */
  function ParseMmapArgs(prot: bv32, flags: bv32): Option<bool> {
    if flags & !KNOWN_FLAGS != 0 || prot & !KNOWN_PROT != 0 then None else Some(flags & MAP_FIXED != 0)
  }

  function MmapStart(t: Task, addr: nat, length: nat, fixed: bool): nat {
    if fixed then addr else FreeArea(t, addr, length)
  }

  lemma MapPrefix(m: Machine, t: Task, ps: seq<nat>)
    requires MachineOk(m) && TaskOk(m, t) && AlignedPages(ps)
    ensures var (m', t') := ApplyAll(m, t, MapEffects(t.mappedPage.Keys, ps));
            && MachineOk(m') && TaskOk(m', t') && t'.vspace == t.vspace && LocalTo(m, m', t.vspace)
            && Memory(m', t') == ZeroPages(ps) + Memory(m, t)
            && t'.mappedPage.Keys == t.mappedPage.Keys + Elements(ps)
  {
    MemoryPages(m, t);
    MapEffectsMemory(Memory(m, t), ps);
    EffectsOk(m, t, MapEffects(t.mappedPage.Keys, ps));
    var (m', t') := ApplyAll(m, t, MapEffects(t.mappedPage.Keys, ps));
    MemoryPages(m', t');
    assert (ZeroPages(ps) + Memory(m, t)).Keys == Elements(ps) + t.mappedPage.Keys;
  }

  lemma UnmapPrefix(m: Machine, t: Task, ps: seq<nat>)
    requires MachineOk(m) && TaskOk(m, t) && AlignedPages(ps)
    ensures var (m', t') := ApplyAll(m, t, UnmapEffects(t.mappedPage.Keys, ps));
            && MachineOk(m') && TaskOk(m', t') && t'.vspace == t.vspace && LocalTo(m, m', t.vspace)
            && Memory(m', t') == Memory(m, t) - Elements(ps)
            && t'.mappedPage.Keys == t.mappedPage.Keys - Elements(ps)
  {
    MemoryPages(m, t);
    UnmapEffectsMemory(Memory(m, t), ps);
    EffectsOk(m, t, UnmapEffects(t.mappedPage.Keys, ps));
    var (m', t') := ApplyAll(m, t, UnmapEffects(t.mappedPage.Keys, ps));
    MemoryPages(m', t');
  }

  /** One turn of the mmap loop. */
  lemma MapTurn(m: Machine, t: Task, ps: seq<nat>, i: nat)
    requires MachineOk(m) && TaskOk(m, t) && AlignedPages(ps) && i < |ps|
    ensures var (m1, t1) := ApplyAll(m, t, MapEffects(t.mappedPage.Keys, ps[..i]));
            && MachineOk(m1) && TaskOk(m1, t1)
            && ApplyAll(m, t, MapEffects(t.mappedPage.Keys, ps[..i + 1])) ==
               if ps[i] in t1.mappedPage then (m1, t1) else Apply(m1, t1, Fresh(ps[i], ZeroPage()))
  {
    assert ps[..i + 1] == ps[..i] + [ps[i]];
    assert AlignedPages(ps[..i]);
    assert ps[i] !in Elements(ps[..i]);
    hide *;
    MapPrefix(m, t, ps[..i]);
    MapEffectsSnoc(t.mappedPage.Keys, ps[..i], ps[i]);
    ApplySnoc(m, t, MapEffects(t.mappedPage.Keys, ps[..i]), Fresh(ps[i], ZeroPage()));
  }

  /** One turn of the munmap loop. */
  lemma UnmapTurn(m: Machine, t: Task, ps: seq<nat>, i: nat)
    requires MachineOk(m) && TaskOk(m, t) && AlignedPages(ps) && i < |ps|
    ensures var (m1, t1) := ApplyAll(m, t, UnmapEffects(t.mappedPage.Keys, ps[..i]));
            && MachineOk(m1) && TaskOk(m1, t1)
            && (ps[i] in t1.mappedPage ==> PageOk(m1, t1, ps[i]))
            && ApplyAll(m, t, UnmapEffects(t.mappedPage.Keys, ps[..i + 1])) ==
               if ps[i] in t1.mappedPage then Apply(m1, t1, Discard(ps[i])) else (m1, t1)
  {
    assert ps[..i + 1][..i] == ps[..i];
    assert AlignedPages(ps[..i]);
    assert ps[i] !in Elements(ps[..i]);
    assert UnmapEffects(t.mappedPage.Keys, ps[..i + 1]) ==
           UnmapEffects(t.mappedPage.Keys, ps[..i]) + if ps[i] in t.mappedPage then [Discard(ps[i])] else [];
    hide MachineOk, PageOk, LocalTo, Memory, Apply, ApplyAll, UnmapEffects, Elements, AlignedPages;
    UnmapPrefix(m, t, ps[..i]);
    ApplySnoc(m, t, UnmapEffects(t.mappedPage.Keys, ps[..i]), Discard(ps[i]));
  }

  /** Old bytes are as they were, and the bytes of new pages are zero. */
  ghost predicate NewBytesZero(before: Pages, after: Pages) {
    forall x: nat :: ByteAt(after, x) == if PageOf(x) in before then ByteAt(before, x)
                                         else if PageOf(x) in after then Some(0) else None
  }

  /** The index after mmap: the old pages and those the range meets, so every byte of the range is there. */
  lemma MmapIndex(m: Machine, t: Task, start: nat, length: nat)
    requires MachineOk(m) && TaskOk(m, t)
    ensures var (m', t') := ApplyAll(m, t, MapEffects(t.mappedPage.Keys, Cover(start, length)));
            && (forall v :: v in t'.mappedPage <==> v in t.mappedPage || Meets(v, start, length))
            && AllMapped(t'.mappedPage.Keys, start, length)
            && NewBytesZero(Memory(m, t), Memory(m', t'))
  {
    var ps := Cover(start, length);
    CoverAligned(start, length);
    hide MachineOk, TaskOk, LocalTo, ApplyAll, MapEffects, AlignedPages, Cover, Memory;
    MapPrefix(m, t, ps);
    var (m', t') := ApplyAll(m, t, MapEffects(t.mappedPage.Keys, ps));
    forall v: nat ensures v in t'.mappedPage <==> v in t.mappedPage || Meets(v, start, length) {
      CoverMeets(start, length, v);
      InElements(ps);
    }
    forall x | start <= x < start + length ensures PageOf(x) in t'.mappedPage.Keys {
      assert Meets(PageOf(x), start, length);
    }
    ZeroBelow(ps, Memory(m, t));
  }

  lemma ZeroBelow(ps: seq<nat>, pages: Pages)
    ensures NewBytesZero(pages, ZeroPages(ps) + pages)
  {
  }

  /** The index after munmap: the old pages that the range does not meet, with their bytes. */
  lemma MunmapIndex(m: Machine, t: Task, start: nat, length: nat)
    requires MachineOk(m) && TaskOk(m, t)
    ensures var (m', t') := ApplyAll(m, t, UnmapEffects(t.mappedPage.Keys, Cover(start, length)));
            && (forall v :: v in t'.mappedPage <==> v in t.mappedPage && !Meets(v, start, length))
            && (forall x :: start <= x < start + length ==> PageOf(x) !in t'.mappedPage)
            && (forall v :: v in t'.mappedPage ==> v in Memory(m, t) && v in Memory(m', t')
                                                   && Memory(m', t')[v] == Memory(m, t)[v])
  {
    var ps := Cover(start, length);
    CoverAligned(start, length);
    hide MachineOk, TaskOk, LocalTo, ApplyAll, UnmapEffects, AlignedPages, Cover, Memory;
    UnmapPrefix(m, t, ps);
    MemoryPages(m, t);
    var (m', t') := ApplyAll(m, t, UnmapEffects(t.mappedPage.Keys, ps));
    forall v: nat ensures v in t'.mappedPage <==> v in t.mappedPage && !Meets(v, start, length) {
      CoverMeets(start, length, v);
      InElements(ps);
    }
    forall x | start <= x < start + length ensures PageOf(x) !in t'.mappedPage {
      assert Meets(PageOf(x), start, length);
    }
    forall v | v in t'.mappedPage
      ensures v in Memory(m, t) && v in Memory(m', t') && Memory(m', t')[v] == Memory(m, t)[v]
    {
      assert v in t.mappedPage.Keys && v !in Elements(ps);
    }
  }

  method MapRange(k: Kernel, task: Sel4Task, ps: seq<nat>)
    requires MachineOk(k.m) && TaskOk(k.m, task.View()) && AlignedPages(ps)
    modifies k, task
    ensures (k.m, task.View()) ==
            ApplyAll(old(k.m), old(task.View()), MapEffects(old(task.mappedPage).Keys, ps))
  {
    ghost var m0, t0 := k.m, task.View();
    for i := 0 to |ps|
      invariant (k.m, task.View()) == ApplyAll(m0, t0, MapEffects(t0.mappedPage.Keys, ps[..i]))
    {
      MapTurn(m0, t0, ps, i);
      if ps[i] in task.mappedPage {
        continue;
      }
      MapZeroed(k, task, ps[i]);
    }
    assert ps[..|ps|] == ps;
  }

  method MmapAt(k: Kernel, task: Sel4Task, addr: nat, length: nat, fixed: bool) returns (start: nat)
    requires MachineOk(k.m) && TaskOk(k.m, task.View())
    modifies k, task
    ensures start == MmapStart(old(task.View()), addr, length, fixed)
    ensures (k.m, task.View()) == ApplyAll(old(k.m), old(task.View()),
                                           MapEffects(old(task.mappedPage).Keys, Cover(start, length)))
  {
    start := addr;
    if !fixed {
      var found := FindFreeArea(task, addr, length);
      start := found.value;
    }
    var ps := Cover(start, length);
    assert AlignedPages(ps) by { CoverAligned(start, length); }
    MapRange(k, task, ps);
  }

  method SysMmap(k: Kernel, task: Sel4Task, addr: nat, length: nat, prot: bv32, flags: bv32) returns (r: SysResult)
    requires MachineOk(k.m) && TaskOk(k.m, task.View())
    modifies k, task
    ensures match ParseMmapArgs(prot, flags)
            case None => r == Fail(EINVAL) && k.m == old(k.m) && task.View() == old(task.View())
            case Some(fixed) =>
              && r == Done(MmapStart(old(task.View()), addr, length, fixed))
              && (k.m, task.View()) == ApplyAll(old(k.m), old(task.View()),
                                                MapEffects(old(task.mappedPage).Keys, Cover(r.value, length)))
    ensures r == Fail(EINVAL) <==> prot & 0xffff_fff8 != 0 || flags & 0xfffd_bfcc != 0
    ensures r.Done? && flags & 0x10 != 0 ==> r.value == addr
    ensures r.Done? && flags & 0x10 == 0 ==> r.value == FreeArea(old(task.View()), addr, length)
    ensures r.Done? ==>
              && AllMapped(task.mappedPage.Keys, r.value, length)
              && (forall v :: v in task.mappedPage <==> v in old(task.mappedPage) || Meets(v, r.value, length))
              && NewBytesZero(Memory(old(k.m), old(task.View())), Memory(k.m, task.View()))
  {
    match ParseMmapArgs(prot, flags)
    case None =>
      r := Fail(EINVAL);
    case Some(fixed) =>
      MmapIndex(k.m, task.View(), MmapStart(task.View(), addr, length, fixed), length);
      hide MachineOk, TaskOk, ApplyAll, MapEffects, Cover, Memory, NewBytesZero, AllMapped, Meets, FreeArea;
      var start := MmapAt(k, task, addr, length, fixed);
      r := Done(start);
  }

  method UnmapRange(k: Kernel, task: Sel4Task, ps: seq<nat>)
    requires MachineOk(k.m) && TaskOk(k.m, task.View()) && AlignedPages(ps)
    modifies k, task
    ensures (k.m, task.View()) ==
            ApplyAll(old(k.m), old(task.View()), UnmapEffects(old(task.mappedPage).Keys, ps))
  {
    ghost var m0, t0 := k.m, task.View();
    for i := 0 to |ps|
      invariant (k.m, task.View()) == ApplyAll(m0, t0, UnmapEffects(t0.mappedPage.Keys, ps[..i]))
    {
      UnmapTurn(m0, t0, ps, i);
      if ps[i] in task.mappedPage {
        task.UnmapPage(k, ps[i]);
      }
    }
    assert ps[..|ps|] == ps;
  }

  method SysUnmap(k: Kernel, task: Sel4Task, addr: nat, length: nat) returns (r: SysResult)
    requires MachineOk(k.m) && TaskOk(k.m, task.View())
    modifies k, task
    ensures r == Done(0)
    ensures (k.m, task.View()) == ApplyAll(old(k.m), old(task.View()),
                                           UnmapEffects(old(task.mappedPage).Keys, Cover(addr, length)))
    ensures forall x :: addr <= x < addr + length ==> PageOf(x) !in task.mappedPage
    ensures forall v :: v in task.mappedPage <==> v in old(task.mappedPage) && !Meets(v, addr, length)
    ensures var before, after := Memory(old(k.m), old(task.View())), Memory(k.m, task.View());
            forall v :: v in task.mappedPage ==> v in before && v in after && after[v] == before[v]
  {
    var ps := Cover(addr, length);
    assert AlignedPages(ps) by { CoverAligned(addr, length); }
    MunmapIndex(k.m, task.View(), addr, length);
    hide MachineOk, TaskOk, ApplyAll, UnmapEffects, Cover, Memory, Meets, AlignedPages;
    UnmapRange(k, task, ps);
    return Done(0);
  }

  // ------------------------------------------------------------------ what mmap and munmap promise

  ghost predicate Touches(e: Effect, v: nat) {
    (e.Fresh? || e.Discard?) && e.v == v
  }

  /** The index entry of a page that no effect maps or unmaps keeps its capability. */
  lemma {:induction false} IndexKept(m: Machine, t: Task, es: seq<Effect>, v: nat)
    requires v in t.mappedPage && forall e :: e in es ==> !Touches(e, v)
    ensures var t' := ApplyAll(m, t, es).1; v in t'.mappedPage && t'.mappedPage[v] == t.mappedPage[v]
    decreases |es|
  {
    if es != [] {
      IndexKept(m, t, es[..|es| - 1], v);
      assert es[|es| - 1] in es;
    }
  }

  lemma {:induction false} MapEffectsTouch(mapped: set<nat>, ps: seq<nat>, e: Effect)
    requires e in MapEffects(mapped, ps)
    ensures e.Fresh? && e.v in ps && e.v !in mapped && e.page == ZeroPage()
    decreases |ps|
  {
    if ps != [] && e in MapEffects(mapped, ps[..|ps| - 1]) {
      MapEffectsTouch(mapped, ps[..|ps| - 1], e);
    }
  }

  lemma {:induction false} UnmapEffectsTouch(mapped: set<nat>, ps: seq<nat>, e: Effect)
    requires e in UnmapEffects(mapped, ps)
    ensures e.Discard? && e.v in ps && e.v in mapped
    decreases |ps|
  {
    if ps != [] && e in UnmapEffects(mapped, ps[..|ps| - 1]) {
      UnmapEffectsTouch(mapped, ps[..|ps| - 1], e);
    }
  }

  /** mmap keeps every old index entry, whatever the range, MAP_FIXED or not. */
  lemma MmapKeepsIndex(m: Machine, t: Task, ps: seq<nat>, v: nat)
    requires v in t.mappedPage
    ensures var t' := ApplyAll(m, t, MapEffects(t.mappedPage.Keys, ps)).1;
            v in t'.mappedPage && t'.mappedPage[v] == t.mappedPage[v]
  {
    forall e | e in MapEffects(t.mappedPage.Keys, ps) ensures !Touches(e, v) {
      MapEffectsTouch(t.mappedPage.Keys, ps, e);
    }
    IndexKept(m, t, MapEffects(t.mappedPage.Keys, ps), v);
  }

  lemma MunmapKeepsIndex(m: Machine, t: Task, ps: seq<nat>, v: nat)
    requires v in t.mappedPage && v !in ps
    ensures var t' := ApplyAll(m, t, UnmapEffects(t.mappedPage.Keys, ps)).1;
            v in t'.mappedPage && t'.mappedPage[v] == t.mappedPage[v]
  {
    forall e | e in UnmapEffects(t.mappedPage.Keys, ps) ensures !Touches(e, v) {
      UnmapEffectsTouch(t.mappedPage.Keys, ps, e);
    }
    IndexKept(m, t, UnmapEffects(t.mappedPage.Keys, ps), v);
  }

  /** Without MAP_FIXED no page of the range was mapped: each of them is new and zero, the others are as they were. */
  lemma MmapIsFresh(m: Machine, t: Task, addr: nat, length: nat)
    requires MachineOk(m) && TaskOk(m, t)
    ensures var start := MmapStart(t, addr, length, false);
            var ps := Cover(start, length);
            var (m', t') := ApplyAll(m, t, MapEffects(t.mappedPage.Keys, ps));
            && start >= USPACE_BASE
            && Elements(ps) !! t.mappedPage.Keys
            && MachineOk(m') && TaskOk(m', t') && LocalTo(m, m', t.vspace) && t'.vspace == t.vspace
            && t'.mappedPage.Keys == t.mappedPage.Keys + Elements(ps)
            && Memory(m', t') == ZeroPages(ps) + Memory(m, t)
  {
    var start := MmapStart(t, addr, length, false);
    var ps := Cover(start, length);
    FreeAreaIsFree(m, t, addr, length);
    forall v | v in t.mappedPage ensures v !in Elements(ps) { CoverIff(start, length, v); }
    CoverAligned(start, length);
    MapPrefix(m, t, ps);
  }

  lemma UnmapUndoesMap(m: Machine, t: Task, ps: seq<nat>, m1: Machine, t1: Task, m2: Machine, t2: Task)
    requires MachineOk(m) && TaskOk(m, t) && AlignedPages(ps) && Elements(ps) !! t.mappedPage.Keys
    requires (m1, t1) == ApplyAll(m, t, MapEffects(t.mappedPage.Keys, ps))
    requires (m2, t2) == ApplyAll(m1, t1, UnmapEffects(t1.mappedPage.Keys, ps))
    ensures t2.mappedPage == t.mappedPage && m2.entries == m.entries && Memory(m2, t2) == Memory(m, t)
  {
    hide *;
    ZeroPagesKeys(ps);
    InElements(ps);
    MapPrefix(m, t, ps);
    UnmapPrefix(m1, t1, ps);
    assert t2.mappedPage.Keys == t.mappedPage.Keys;
    forall v | v in t.mappedPage ensures t2.mappedPage[v] == t.mappedPage[v] {
      MmapKeepsIndex(m, t, ps, v);
      MunmapKeepsIndex(m1, t1, ps, v);
    }
    LocalTransitive(m, m1, m2, t.vspace);
    EntriesFollowIndex(m, t, m2, t2);
    MemoryPages(m, t);
    OverlayMinus(ZeroPages(ps), Memory(m, t), Elements(ps));
  }

  /** munmap of what mmap returned restores the index, the leaf entries and the memory exactly. */
  lemma MunmapUndoesMmap(m: Machine, t: Task, addr: nat, length: nat)
    requires MachineOk(m) && TaskOk(m, t)
    ensures var ps := Cover(MmapStart(t, addr, length, false), length);
            var (m1, t1) := ApplyAll(m, t, MapEffects(t.mappedPage.Keys, ps));
            var (m2, t2) := ApplyAll(m1, t1, UnmapEffects(t1.mappedPage.Keys, ps));
            t2.mappedPage == t.mappedPage && m2.entries == m.entries && Memory(m2, t2) == Memory(m, t)
  {
    var ps := Cover(MmapStart(t, addr, length, false), length);
    var (m1, t1) := ApplyAll(m, t, MapEffects(t.mappedPage.Keys, ps));
    var (m2, t2) := ApplyAll(m1, t1, UnmapEffects(t1.mappedPage.Keys, ps));
    assert Elements(ps) !! t.mappedPage.Keys by { MmapIsFresh(m, t, addr, length); }
    assert AlignedPages(ps) by { CoverAligned(MmapStart(t, addr, length, false), length); }
    UnmapUndoesMap(m, t, ps, m1, t1, m2, t2);
  }

  lemma OverlayMinus<T>(a: map<nat, T>, b: map<nat, T>, s: set<nat>)
    requires a.Keys == s && s !! b.Keys
    ensures a + b - s == b
  {
  }
}
