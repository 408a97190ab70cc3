/**
 A task's address space: the bounded retry of `map_page`, which installs the missing translation
 tables one level at a time, `unmap_page`, and the page index that mirrors the hardware.
 */
module TaskSpace {
  import opened Base
  import opened Machine

  /** The value of a task: its vspace, its page index and the page-table capabilities it installed. */
  datatype Task = Task(vspace: nat, mappedPage: map<nat, nat>, mappedPt: seq<nat>)

  // ------------------------------------------------------------------ installing tables

  /** One retry: a new page table, at the highest level that is missing. */
  function AddTable(m: Machine, vs: nat, v: nat): Machine
    requires !ChainComplete(m, vs, v)
  {
    var t := TableAt(m, vs, v, Missing(m, vs, v)[0]);
    m.(tables := m.tables + {t}, ptCaps := m.ptCaps[m.next := Some(t)], next := m.next + 1)
  }

  lemma {:induction false} MissingBelow(m: Machine, m': Machine, vs: nat, v: nat, l: nat, level: nat)
    requires l < level <= |m.spans|
    requires m'.spans == m.spans && m'.tables == m.tables + {TableAt(m, vs, v, l)}
    ensures MissingFrom(m', vs, v, level) == MissingFrom(m, vs, v, level)
    decreases |m.spans| - level
  {
    if level < |m.spans| {
      MissingBelow(m, m', vs, v, l, level + 1);
      assert HasTable(m', vs, v, level) == HasTable(m, vs, v, level);
    }
  }

  /** Installing the first missing level removes exactly that level from the missing ones. */
  lemma {:induction false} MissingShrinks(m: Machine, m': Machine, vs: nat, v: nat, level: nat)
    requires level <= |m.spans| && MissingFrom(m, vs, v, level) != []
    requires m'.spans == m.spans && m'.tables == m.tables + {TableAt(m, vs, v, MissingFrom(m, vs, v, level)[0])}
    ensures MissingFrom(m', vs, v, level) == MissingFrom(m, vs, v, level)[1..]
    decreases |m.spans| - level
  {
    if HasTable(m, vs, v, level) {
      MissingShrinks(m, m', vs, v, level + 1);
    } else {
      MissingBelow(m, m', vs, v, level, level + 1);
    }
  }

  /** All retries together. */
  function Install(m: Machine, vs: nat, v: nat): Machine
    decreases |Missing(m, vs, v)|
  {
    if ChainComplete(m, vs, v) then m
    else
      var m' := AddTable(m, vs, v);
      MissingShrinks(m, m', vs, v, 1);
      Install(m', vs, v)
  }

  /** Everything but tables, page-table capabilities and the slot cursor is as before. */
  ghost predicate SameMemory(m: Machine, m': Machine) {
    m'.(tables := m.tables, ptCaps := m.ptCaps, next := m.next) == m
  }

  lemma {:induction false} InstallCompletes(m: Machine, vs: nat, v: nat)
    ensures var m' := Install(m, vs, v);
            SameMemory(m, m') && ChainComplete(m', vs, v) && m'.next == m.next + |Missing(m, vs, v)|
    decreases |Missing(m, vs, v)|
  {
    if !ChainComplete(m, vs, v) {
      var m1 := AddTable(m, vs, v);
      MissingShrinks(m, m1, vs, v, 1);
      InstallCompletes(m1, vs, v);
    }
  }

  /** The tables after the retries are the old ones and those of the missing levels, no others. */
  lemma {:induction false} InstallTables(m: Machine, vs: nat, v: nat, t: Table)
    ensures t in Install(m, vs, v).tables <==>
            t in m.tables || (t.level in Missing(m, vs, v) && t == TableAt(m, vs, v, t.level))
    decreases |Missing(m, vs, v)|
  {
    var ls := Missing(m, vs, v);
    if ls != [] {
      var m1 := AddTable(m, vs, v);
      MissingShrinks(m, m1, vs, v, 1);
      InstallTables(m1, vs, v, t);
      assert t.level in ls <==> t.level == ls[0] || t.level in ls[1..];
    }
  }

  /** The i-th retry puts the i-th missing table in the i-th fresh slot; older slots keep theirs. */
  lemma {:induction false} InstallSlot(m: Machine, vs: nat, v: nat, s: nat)
    ensures var m', ls := Install(m, vs, v), Missing(m, vs, v);
            if m.next <= s < m.next + |ls|
            then s in m'.ptCaps && m'.ptCaps[s] == Some(TableAt(m, vs, v, ls[s - m.next]))
            else (s in m'.ptCaps <==> s in m.ptCaps) && (s in m.ptCaps ==> m'.ptCaps[s] == m.ptCaps[s])
    decreases |Missing(m, vs, v)|
  {
    if !ChainComplete(m, vs, v) {
      var m1 := AddTable(m, vs, v);
      MissingShrinks(m, m1, vs, v, 1);
      InstallSlot(m1, vs, v, s);
    }
  }

  lemma {:induction false} CompleteMonotone(m: Machine, m': Machine, vs: nat, v: nat)
    requires m'.spans == m.spans && m.tables <= m'.tables && ChainComplete(m, vs, v)
    ensures ChainComplete(m', vs, v)
  {
    var ls := Missing(m', vs, v);
    if ls != [] {
      MissingIff(m', vs, v, 1, ls[0]);
      MissingIff(m, vs, v, 1, ls[0]);
      assert false;
    }
  }

  // ------------------------------------------------------------------ map_page, unmap_page

  function Slots(lo: nat, hi: nat): (s: seq<nat>)
    requires lo <= hi
    ensures |s| == hi - lo && forall i :: 0 <= i < |s| ==> s[i] == lo + i
  {
    seq(hi - lo, i requires 0 <= i => lo + i)
  }

  lemma SlotsSnoc(pts: seq<nat>, lo: nat, hi: nat)
    requires lo <= hi
    ensures pts + Slots(lo, hi) + [hi] == pts + Slots(lo, hi + 1)
  {
    assert Slots(lo, hi + 1) == Slots(lo, hi) + [hi];
  }

  /** One retry as the code makes it: allocate a page table, then map it. */
  lemma RetryIsAddTable(m: Machine, vs: nat, v: nat)
    requires !ChainComplete(m, vs, v)
    ensures PtMap(AllocPt(m), m.next, vs, v) == (AddTable(m, vs, v), Ok)
    ensures Install(AddTable(m, vs, v), vs, v) == Install(m, vs, v)
    ensures |Missing(AddTable(m, vs, v), vs, v)| + 1 == |Missing(m, vs, v)|
  {
    SameTablesSameMissing(m, AllocPt(m), vs, v, 1);
    var t := TableAt(m, vs, v, Missing(m, vs, v)[0]);
    assert m.ptCaps[m.next := None][m.next := Some(t)] == m.ptCaps[m.next := Some(t)];
    MissingShrinks(m, AddTable(m, vs, v), vs, v, 1);
  }

  predicate Mappable(m: Machine, t: Task, v: nat, c: nat) {
    && v % PAGE_SIZE == 0
    && c in m.caps && m.caps[c].at.None?
    && Loc(t.vspace, v) !in m.entries
  }

  lemma MapInstalls(m: Machine, t: Task, v: nat)
    ensures SameMemory(m, Install(m, t.vspace, v)) && m.next <= Install(m, t.vspace, v).next
  {
    InstallCompletes(m, t.vspace, v);
  }

  /** What `map_page` does to the machine and the task. */
  function MapPageSpec(m: Machine, t: Task, v: nat, c: nat): (Machine, Task)
    requires Mappable(m, t, v, c)
  {
    MapInstalls(m, t, v);
    var m' := Install(m, t.vspace, v);
    (Enter(m', c, t.vspace, v), t.(mappedPage := t.mappedPage[v := c], mappedPt := t.mappedPt + Slots(m.next, m'.next)))
  }

  /**
   The page tables recorded for mapping `v`: one capability for each level that was missing, in order,
   holding the table of that level on the walk to `v`; none of them existed before.
   */
  ghost predicate NewTables(m: Machine, vs: nat, v: nat, m': Machine, pts: seq<nat>) {
    && m'.spans == m.spans && |pts| == |Missing(m, vs, v)|
    && forall j :: 0 <= j < |pts| ==>
         && pts[j] in m'.ptCaps && pts[j] !in m.ptCaps
         && var level := Missing(m, vs, v)[j];
            m'.ptCaps[pts[j]] == Some(Table(vs, level, RoundDown(v, m.spans[level])))
  }

  lemma MapPageTables(m: Machine, t: Task, v: nat, c: nat)
    requires Mappable(m, t, v, c) && forall s :: s in m.ptCaps ==> s < m.next
    ensures var (m', t') := MapPageSpec(m, t, v, c);
            && t.mappedPt <= t'.mappedPt
            && NewTables(m, t.vspace, v, m', t'.mappedPt[|t.mappedPt|..])
  {
    var (m', t') := MapPageSpec(m, t, v, c);
    var pts := t'.mappedPt[|t.mappedPt|..];
    InstallCompletes(m, t.vspace, v);
    assert pts == Slots(m.next, m'.next);
    hide Install, Missing;
    forall j | 0 <= j < |pts|
      ensures pts[j] in m'.ptCaps && pts[j] !in m.ptCaps
      ensures m'.ptCaps[pts[j]] == Some(TableAt(m, t.vspace, v, Missing(m, t.vspace, v)[j]))
    {
      InstallSlot(m, t.vspace, v, pts[j]);
    }
  }

  predicate Unmappable(m: Machine, t: Task, v: nat) {
    v in t.mappedPage && t.mappedPage[v] in m.caps
  }

  function UnmapPageSpec(m: Machine, t: Task, v: nat): (Machine, Task)
    requires Unmappable(m, t, v)
  {
    (Leave(m, t.mappedPage[v]), t.(mappedPage := t.mappedPage - {v}))
  }

  class Sel4Task {
    const vspace: nat
    var mappedPt: seq<nat>
    var mappedPage: map<nat, nat>

    constructor (vs: nat)
      ensures vspace == vs && View() == Task(vs, map[], [])
    {
      vspace := vs;
      mappedPt := [];
      mappedPage := map[];
    }

    function View(): Task
      reads this
    {
      Task(vspace, mappedPage, mappedPt)
    }

    /**
     The retry loop.  Each FailedLookup is answered by one new page table, so at most one attempt
     per level fails and the loop never falls through.
     */
    method MapPage(k: Kernel, v: nat, c: nat)
      requires Mappable(k.m, View(), v, c)
      modifies this, k
      ensures (k.m, View()) == MapPageSpec(old(k.m), old(View()), v, c)
      ensures v in mappedPage && mappedPage[v] == c && old(mappedPt) <= mappedPt
      ensures (forall s :: s in old(k.m.ptCaps) ==> s < old(k.m.next)) ==>
                NewTables(old(k.m), vspace, v, k.m, mappedPt[|old(mappedPt)|..])
    {
      ghost var m0, t0 := k.m, View();
      if forall s :: s in m0.ptCaps ==> s < m0.next { MapPageTables(m0, t0, v, c); }
      InstallCompletes(m0, vspace, v);
      for attempt := 0 to |k.m.spans|
        invariant k.m.spans == m0.spans && SameMemory(m0, k.m)
        invariant Install(k.m, vspace, v) == Install(m0, vspace, v)
        invariant attempt + |Missing(k.m, vspace, v)| == |Missing(m0, vspace, v)|
        invariant k.m.next == m0.next + attempt
        invariant View() == t0.(mappedPt := t0.mappedPt + Slots(m0.next, k.m.next))
      {
        var (m1, res) := FrameMap(k.m, c, vspace, v);
        k.m := m1;
        if res == Ok {
          mappedPage := mappedPage[v := c];
          return;
        } else if res == Err(FailedLookup) {
          var pt := k.m.next;
          RetryIsAddTable(k.m, vspace, v);
          k.m := AllocPt(k.m);
          var (m2, mapped) := PtMap(k.m, pt, vspace, v);
          assert mapped == Ok;
          k.m := m2;
          mappedPt := mappedPt + [pt];
          SlotsSnoc(t0.mappedPt, m0.next, pt);
        } else {
          assert false;
        }
      }
      assert false;
    }

    method UnmapPage(k: Kernel, v: nat)
      requires v % PAGE_SIZE == 0 && Unmappable(k.m, View(), v)
      modifies this, k
      ensures (k.m, View()) == UnmapPageSpec(old(k.m), old(View()), v)
    {
      var (m1, res) := FrameUnmap(k.m, mappedPage[v]);
      assert res == Ok;
      k.m := m1;
      mappedPage := mappedPage - {v};
    }
  }

  lemma {:induction false} SameTablesSameMissing(m: Machine, m': Machine, vs: nat, v: nat, level: nat)
    requires m'.spans == m.spans && m'.tables == m.tables && level <= |m.spans|
    ensures MissingFrom(m', vs, v, level) == MissingFrom(m, vs, v, level)
    decreases |m.spans| - level
  {
    if level < |m.spans| {
      SameTablesSameMissing(m, m', vs, v, level + 1);
    }
  }
}
