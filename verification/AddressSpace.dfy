/**
 The page index agrees with the hardware.  Every operation on address spaces is a sequence of
 effects on one task; each effect keeps the index, the page tables and the capabilities in
 agreement, keeps frames private, and refines a plain map from pages to contents.
 */
module AddressSpace {
  import opened Base
  import opened Machine
  import opened TaskSpace

  datatype System = System(m: Machine, tasks: map<nat, Task>)

  // ------------------------------------------------------------------ the invariant

  predicate WindowFree(m: Machine, w: nat) {
    w % PAGE_SIZE == 0 && ChainComplete(m, INIT_VSPACE, w) && Loc(INIT_VSPACE, w) !in m.entries
  }

  /** Slots in use are below the cursor, every frame has one capability, windows and slot 0 are free. */
  ghost predicate MachineOk(m: Machine) {
    && INIT_VSPACE < m.next
    && (forall c :: c in m.caps ==> 0 < c < m.next && m.caps[c].frame == c && c in m.frames)
    && (forall s :: s in m.ptCaps ==> 0 < s < m.next)
    && (forall l :: l in m.entries ==> l.vspace < m.next)
    && m.seat != m.ext && WindowFree(m, m.seat) && WindowFree(m, m.ext)
  }

  ghost predicate PageOk(m: Machine, t: Task, v: nat)
    requires v in t.mappedPage
  {
    var c := t.mappedPage[v];
    && v % PAGE_SIZE == 0
    && c in m.caps && m.caps[c].at == Some(Loc(t.vspace, v)) && c in m.frames
    && Loc(t.vspace, v) in m.entries && m.entries[Loc(t.vspace, v)] == m.caps[c].frame
    && ChainComplete(m, t.vspace, v)
  }

  /** A page-table capability in use, for a table of this vspace. */
  predicate OwnTable(m: Machine, vs: nat, s: nat) {
    s in m.ptCaps && m.ptCaps[s].Some? && m.ptCaps[s].value.vspace == vs
  }

  /** `mapped_pt` holds page-table capabilities of the task's own vspace, none twice. */
  ghost predicate TablesOwned(m: Machine, t: Task) {
    && (forall i, j :: 0 <= i < j < |t.mappedPt| ==> t.mappedPt[i] != t.mappedPt[j])
    && (forall i :: 0 <= i < |t.mappedPt| ==> OwnTable(m, t.vspace, t.mappedPt[i]))
  }

  /** No page-table capability goes or changes. */
  ghost predicate TablesKept(m: Machine, m': Machine) {
    forall s :: s in m.ptCaps ==> s in m'.ptCaps && m'.ptCaps[s] == m.ptCaps[s]
  }

  lemma OwnedKept(m: Machine, m': Machine, t: Task)
    requires TablesOwned(m, t) && TablesKept(m, m')
    ensures TablesOwned(m', t)
  {
    forall i | 0 <= i < |t.mappedPt| ensures OwnTable(m', t.vspace, t.mappedPt[i]) {
      assert OwnTable(m, t.vspace, t.mappedPt[i]);
    }
  }

  /** `mapped_page` sends v to capability c exactly when the vspace maps v to the frame of c. */
  ghost predicate TaskOk(m: Machine, t: Task) {
    && t.vspace < m.next && t.vspace != INIT_VSPACE
    && (forall v :: v in t.mappedPage ==> PageOk(m, t, v))
    && (forall v :: Loc(t.vspace, v) in m.entries ==> v in t.mappedPage)
    && TablesOwned(m, t)
  }

  ghost predicate SystemOk(s: System) {
    && MachineOk(s.m)
    && (forall i :: i in s.tasks ==> TaskOk(s.m, s.tasks[i]))
    && (forall i, j :: i in s.tasks && j in s.tasks && s.tasks[i].vspace == s.tasks[j].vspace ==> i == j)
  }

  /** No two addresses of any tasks share a frame. */
  lemma FramesPrivate(s: System, i: nat, v: nat, j: nat, w: nat)
    requires SystemOk(s) && i in s.tasks && j in s.tasks
    requires Loc(s.tasks[i].vspace, v) in s.m.entries && Loc(s.tasks[j].vspace, w) in s.m.entries
    requires s.m.entries[Loc(s.tasks[i].vspace, v)] == s.m.entries[Loc(s.tasks[j].vspace, w)]
    ensures i == j && v == w
  {
    assert PageOk(s.m, s.tasks[i], v) && PageOk(s.m, s.tasks[j], w);
    var c, d := s.tasks[i].mappedPage[v], s.tasks[j].mappedPage[w];
    assert s.m.caps[c].frame == s.m.caps[d].frame;
    assert c == d;
  }

  // ------------------------------------------------------------------ the simple view

  /** A task's memory: which pages it has and what they hold. */
  function Memory(m: Machine, t: Task): map<nat, Page> {
    Follow(t.mappedPage, m.frames)
  }

  function Follow(index: map<nat, nat>, frames: map<nat, Page>): map<nat, Page> {
    map v | v in index && index[v] in frames :: frames[index[v]]
  }

  lemma MemoryPages(m: Machine, t: Task)
    requires TaskOk(m, t)
    ensures Memory(m, t).Keys == t.mappedPage.Keys
  {
    assert forall v :: v in t.mappedPage ==> PageOk(m, t, v);
  }

  datatype Effect =
    | Fresh(v: nat, page: Page)    // map a new frame holding `page`
    | Refill(v: nat, page: Page)   // replace the contents of a mapped page
    | Discard(v: nat)              // unmap a page

  predicate EnabledOn(pages: map<nat, Page>, e: Effect) {
    match e
    case Fresh(v, _) => v % PAGE_SIZE == 0 && v !in pages
    case Refill(v, _) => v in pages
    case Discard(v) => v in pages
  }

  function Simple(pages: map<nat, Page>, e: Effect): map<nat, Page> {
    match e
    case Fresh(v, p) => pages[v := p]
    case Refill(v, p) => pages[v := p]
    case Discard(v) => pages - {v}
  }

  function SimpleAll(pages: map<nat, Page>, es: seq<Effect>): map<nat, Page> {
    if es == [] then pages else Simple(SimpleAll(pages, es[..|es| - 1]), es[|es| - 1])
  }

  predicate AllEnabledOn(pages: map<nat, Page>, es: seq<Effect>) {
    es == [] ||
    (AllEnabledOn(pages, es[..|es| - 1]) && EnabledOn(SimpleAll(pages, es[..|es| - 1]), es[|es| - 1]))
  }

  // ------------------------------------------------------------------ the effects on the machine

  function Apply(m: Machine, t: Task, e: Effect): (Machine, Task) {
    match e
    case Fresh(v, p) =>
      var m1 := AddFrame(m, p);
      if Mappable(m1, t, v, m.next) then MapPageSpec(m1, t, v, m.next) else (m, t)
    case Refill(v, p) =>
      if v in t.mappedPage && t.mappedPage[v] in m.frames
      then (m.(frames := m.frames[t.mappedPage[v] := p]), t)
      else (m, t)
    case Discard(v) =>
      if Unmappable(m, t, v) then UnmapPageSpec(m, t, v) else (m, t)
  }

  function ApplyAll(m: Machine, t: Task, es: seq<Effect>): (Machine, Task) {
    if es == [] then (m, t)
    else
      var (m1, t1) := ApplyAll(m, t, es[..|es| - 1]);
      Apply(m1, t1, es[|es| - 1])
  }

  // ------------------------------------------------------------------ one effect

  /** Seen from every vspace but `vs`, nothing but more tables and a later cursor. */
  ghost predicate LocalTo(m: Machine, m': Machine, vs: nat) {
    && m'.spans == m.spans && m'.seat == m.seat && m'.ext == m.ext
    && m.tables <= m'.tables && m.next <= m'.next && TablesKept(m, m')
    && (forall l :: l in m.entries && l.vspace != vs ==> l in m'.entries && m'.entries[l] == m.entries[l])
    && (forall l :: l in m'.entries && l.vspace != vs ==> l in m.entries)
    && (forall c :: c in m.caps && m.caps[c].at.Some? && m.caps[c].at.value.vspace != vs ==>
          c in m'.caps && m'.caps[c] == m.caps[c] && (c in m.frames ==> c in m'.frames && m'.frames[c] == m.frames[c]))
  }

  lemma LocalKeepsTask(m: Machine, m': Machine, vs: nat, u: Task)
    requires LocalTo(m, m', vs) && u.vspace != vs && TaskOk(m, u)
    ensures TaskOk(m', u) && Memory(m', u) == Memory(m, u)
  {
    forall v | v in u.mappedPage ensures PageOk(m', u, v) {
      assert PageOk(m, u, v);
      CompleteMonotone(m, m', u.vspace, v);
    }
    OwnedKept(m, m', u);
  }

  lemma LocalKeepsWindows(m: Machine, m': Machine, vs: nat)
    requires LocalTo(m, m', vs) && vs != INIT_VSPACE
    requires WindowFree(m, m.seat) && WindowFree(m, m.ext)
    ensures WindowFree(m', m'.seat) && WindowFree(m', m'.ext)
  {
    CompleteMonotone(m, m', INIT_VSPACE, m.seat);
    CompleteMonotone(m, m', INIT_VSPACE, m.ext);
  }

  /** What mapping a new frame changes, in closed form. */
  ghost predicate FreshPost(m: Machine, t: Task, v: nat, p: Page, m': Machine, t': Task) {
    && t'.vspace == t.vspace && t'.mappedPage == t.mappedPage[v := m.next]
    && m'.frames == m.frames[m.next := p]
    && m'.caps == m.caps[m.next := FrameCap(m.next, Some(Loc(t.vspace, v)))]
    && m'.entries == m.entries[Loc(t.vspace, v) := m.next]
    && m.next < m'.next && m.tables <= m'.tables
    && m'.spans == m.spans && m'.seat == m.seat && m'.ext == m.ext
    && ChainComplete(m', t.vspace, v)
    && (forall s :: s in m'.ptCaps ==> s in m.ptCaps || m.next < s < m'.next)
    && TablesKept(m, m') && t'.mappedPt == t.mappedPt + Slots(m.next + 1, m'.next)
    && (forall s :: m.next < s < m'.next ==> OwnTable(m', t.vspace, s))
  }

  lemma InstallGrows(m: Machine, vs: nat, v: nat)
    ensures var m' := Install(m, vs, v);
            && SameMemory(m, m') && ChainComplete(m', vs, v) && m.next <= m'.next && m.tables <= m'.tables
            && (forall s :: s in m'.ptCaps ==> s in m.ptCaps || m.next <= s < m'.next)
            && (forall s :: m.next <= s < m'.next ==> OwnTable(m', vs, s))
            && ((forall s :: s in m.ptCaps ==> s < m.next) ==> TablesKept(m, m'))
  {
    hide Install;
    var m' := Install(m, vs, v);
    InstallCompletes(m, vs, v);
    forall s | m.next <= s < m'.next ensures OwnTable(m', vs, s) { InstallSlot(m, vs, v, s); }
    forall s | s in m.ptCaps && s < m.next ensures s in m'.ptCaps && m'.ptCaps[s] == m.ptCaps[s] {
      InstallSlot(m, vs, v, s);
    }
    forall x | x in m.tables ensures x in m'.tables { InstallTables(m, vs, v, x); }
    forall s | s in m'.ptCaps ensures s in m.ptCaps || m.next <= s < m'.next { InstallSlot(m, vs, v, s); }
  }

  /** The tables and their capabilities once a new frame's address has been made reachable and entered. */
  lemma FreshInstall(m: Machine, vs: nat, v: nat, p: Page)
    requires forall s :: s in m.ptCaps ==> s < m.next
    ensures var m2 := Install(AddFrame(m, p), vs, v);
            && SameMemory(AddFrame(m, p), m2) && m.next < m2.next && m.tables <= m2.tables
            && (forall s :: s in m2.ptCaps ==> s in m.ptCaps || m.next < s < m2.next)
            && var m' := Enter(m2, m.next, vs, v);
               && ChainComplete(m', vs, v) && TablesKept(m, m')
               && (forall s :: m.next < s < m2.next ==> OwnTable(m', vs, s))
  {
    InstallGrows(AddFrame(m, p), vs, v);
    hide Install;
    var m2 := Install(AddFrame(m, p), vs, v);
    var m' := Enter(m2, m.next, vs, v);
    SameTablesSameMissing(m2, m', vs, v, 1);
    assert ChainComplete(m', vs, v);
    forall s | m.next < s < m2.next ensures OwnTable(m', vs, s) { assert OwnTable(m2, vs, s); }
    hide OwnTable, ChainComplete;
  }

  lemma FreshMachine(m: Machine, t: Task, v: nat, p: Page)
    requires MachineOk(m) && TaskOk(m, t) && v % PAGE_SIZE == 0 && v !in t.mappedPage
    ensures var (m', t') := Apply(m, t, Fresh(v, p)); FreshPost(m, t, v, p, m', t')
  {
    var m1 := AddFrame(m, p);
    assert Mappable(m1, t, v, m.next);
    assert forall s :: s in m.ptCaps ==> s < m.next;
    hide MachineOk, TaskOk, Install, Slots;
    FreshInstall(m, t.vspace, v, p);
    hide OwnTable, ChainComplete, TablesKept;
    assert m1.caps[m.next := FrameCap(m.next, Some(Loc(t.vspace, v)))] ==
           m.caps[m.next := FrameCap(m.next, Some(Loc(t.vspace, v)))];
  }

  lemma FreshMachineOk(m: Machine, t: Task, v: nat, p: Page, m': Machine, t': Task)
    requires MachineOk(m) && TaskOk(m, t) && FreshPost(m, t, v, p, m', t')
    ensures LocalTo(m, m', t.vspace) && MachineOk(m')
  {
    FreshLocal(m, t, v, p, m', t');
    LocalKeepsWindows(m, m', t.vspace);
    hide LocalTo, WindowFree, PageOk, ChainComplete;
  }

  lemma FreshLocal(m: Machine, t: Task, v: nat, p: Page, m': Machine, t': Task)
    requires MachineOk(m) && FreshPost(m, t, v, p, m', t')
    ensures LocalTo(m, m', t.vspace)
  {
    hide WindowFree, ChainComplete;
  }

  /** The new page tables are different from the old ones and from each other. */
  lemma FreshTables(m: Machine, t: Task, v: nat, p: Page, m': Machine, t': Task)
    requires MachineOk(m) && TablesOwned(m, t) && FreshPost(m, t, v, p, m', t')
    ensures TablesOwned(m', t')
  {
    OwnedKept(m, m', t);
    var n := |t.mappedPt|;
    forall i | 0 <= i < |t'.mappedPt| ensures OwnTable(m', t.vspace, t'.mappedPt[i]) {
      if i < n { assert OwnTable(m', t.vspace, t.mappedPt[i]); }
    }
    forall i | 0 <= i < n ensures t.mappedPt[i] < m.next { assert OwnTable(m, t.vspace, t.mappedPt[i]); }
    hide MachineOk, TablesKept;
  }

  lemma FreshTaskOk(m: Machine, t: Task, v: nat, p: Page, m': Machine, t': Task)
    requires MachineOk(m) && TaskOk(m, t) && FreshPost(m, t, v, p, m', t')
    requires v % PAGE_SIZE == 0 && v !in t.mappedPage
    ensures TaskOk(m', t')
  {
    FreshTables(m, t, v, p, m', t');
    hide TablesOwned, TablesKept, OwnTable;
    forall w | w in t'.mappedPage ensures PageOk(m', t', w) {
      if w != v {
        assert PageOk(m, t, w);
        CompleteMonotone(m, m', t.vspace, w);
      }
    }
  }

  lemma FreshMemory(m: Machine, t: Task, v: nat, p: Page, m': Machine, t': Task)
    requires MachineOk(m) && TaskOk(m, t) && FreshPost(m, t, v, p, m', t')
    ensures Memory(m', t') == Simple(Memory(m, t), Fresh(v, p))
  {
    assert forall w :: w in t.mappedPage ==> t.mappedPage[w] in m.frames && t.mappedPage[w] != m.next by {
      assert forall w :: w in t.mappedPage ==> PageOk(m, t, w);
    }
    FollowUpdate(t.mappedPage, m.frames, v, m.next, p);
  }

  lemma FollowUpdate(index: map<nat, nat>, frames: map<nat, Page>, v: nat, c: nat, p: Page)
    requires forall w :: w in index ==> index[w] in frames && index[w] != c
    ensures Follow(index[v := c], frames[c := p]) == Follow(index, frames)[v := p]
  {
  }

  lemma RefillTaskOk(m: Machine, t: Task, c: nat, p: Page)
    requires MachineOk(m) && TaskOk(m, t) && c in m.frames && c in m.caps
    ensures TaskOk(m.(frames := m.frames[c := p]), t)
  {
    var m' := m.(frames := m.frames[c := p]);
    OwnedKept(m, m', t);
    forall w | w in t.mappedPage ensures PageOk(m', t, w) {
      assert PageOk(m, t, w);
      CompleteMonotone(m, m', t.vspace, w);
    }
  }

  lemma RefillMemory(m: Machine, t: Task, v: nat, p: Page)
    requires MachineOk(m) && TaskOk(m, t) && v in t.mappedPage
    ensures Memory(m.(frames := m.frames[t.mappedPage[v] := p]), t) == Memory(m, t)[v := p]
  {
    assert forall w :: w in t.mappedPage && w != v ==> t.mappedPage[w] != t.mappedPage[v] by {
      assert forall w :: w in t.mappedPage ==> PageOk(m, t, w);
    }
    assert t.mappedPage[v] in m.frames by { assert PageOk(m, t, v); }
  }

  lemma RefillMachineOk(m: Machine, t: Task, v: nat, p: Page)
    requires MachineOk(m) && TaskOk(m, t) && v in t.mappedPage
    ensures var m' := m.(frames := m.frames[t.mappedPage[v] := p]);
            MachineOk(m') && LocalTo(m, m', t.vspace)
  {
    var m' := m.(frames := m.frames[t.mappedPage[v] := p]);
    assert PageOk(m, t, v);
    assert LocalTo(m, m', t.vspace);
    LocalKeepsWindows(m, m', t.vspace);
    hide LocalTo, WindowFree, PageOk, ChainComplete;
  }

  lemma RefillOk(m: Machine, t: Task, v: nat, p: Page)
    requires MachineOk(m) && TaskOk(m, t) && v in t.mappedPage
    ensures var (m', t') := Apply(m, t, Refill(v, p));
            MachineOk(m') && TaskOk(m', t') && t'.vspace == t.vspace && LocalTo(m, m', t.vspace)
            && Memory(m', t') == Simple(Memory(m, t), Refill(v, p))
  {
    assert PageOk(m, t, v);
    var c := t.mappedPage[v];
    assert Apply(m, t, Refill(v, p)) == (m.(frames := m.frames[c := p]), t);
    hide MachineOk, TaskOk, LocalTo, Memory, Apply;
    RefillMachineOk(m, t, v, p);
    RefillTaskOk(m, t, c, p);
    RefillMemory(m, t, v, p);
  }

  lemma DiscardMachine(m: Machine, t: Task, v: nat)
    requires MachineOk(m) && TaskOk(m, t) && v in t.mappedPage
    ensures var (m', t') := Apply(m, t, Discard(v));
            && t' == t.(mappedPage := t.mappedPage - {v})
            && m' == m.(entries := m.entries - {Loc(t.vspace, v)},
                        caps := m.caps[t.mappedPage[v] := FrameCap(t.mappedPage[v], None)])
            && LocalTo(m, m', t.vspace)
  {
    assert PageOk(m, t, v);
  }

  lemma DiscardMachineOk(m: Machine, t: Task, v: nat, m': Machine)
    requires MachineOk(m) && TaskOk(m, t) && v in t.mappedPage && LocalTo(m, m', t.vspace)
    requires m' == m.(entries := m.entries - {Loc(t.vspace, v)},
                      caps := m.caps[t.mappedPage[v] := FrameCap(t.mappedPage[v], None)])
    ensures MachineOk(m')
  {
    LocalKeepsWindows(m, m', t.vspace);
    assert PageOk(m, t, v);
  }

  lemma DiscardTaskOk(m: Machine, t: Task, v: nat, m': Machine, t': Task)
    requires MachineOk(m) && TaskOk(m, t) && v in t.mappedPage
    requires m' == m.(entries := m.entries - {Loc(t.vspace, v)},
                      caps := m.caps[t.mappedPage[v] := FrameCap(t.mappedPage[v], None)])
    requires t' == t.(mappedPage := t.mappedPage - {v})
    ensures TaskOk(m', t')
  {
    assert PageOk(m, t, v);
    OwnedKept(m, m', t);
    assert TablesOwned(m', t');
    forall w | w in t'.mappedPage ensures PageOk(m', t', w) {
      assert PageOk(m, t, w);
      CompleteMonotone(m, m', t.vspace, w);
    }
  }

  lemma DiscardOk(m: Machine, t: Task, v: nat)
    requires MachineOk(m) && TaskOk(m, t) && v in t.mappedPage
    ensures var (m', t') := Apply(m, t, Discard(v));
            MachineOk(m') && TaskOk(m', t')
            && Memory(m', t') == Simple(Memory(m, t), Discard(v))
  {
    hide MachineOk, TaskOk, LocalTo, Apply, PageOk;
    DiscardMachine(m, t, v);
    var (m', t') := Apply(m, t, Discard(v));
    DiscardMachineOk(m, t, v, m');
    DiscardTaskOk(m, t, v, m', t');
  }

  /** One enabled effect keeps the agreement and does to the memory what the simple map says. */
  lemma EffectOk(m: Machine, t: Task, e: Effect)
    requires MachineOk(m) && TaskOk(m, t) && EnabledOn(Memory(m, t), e)
    ensures var (m', t') := Apply(m, t, e);
            MachineOk(m') && TaskOk(m', t') && t'.vspace == t.vspace && LocalTo(m, m', t.vspace)
            && Memory(m', t') == Simple(Memory(m, t), e)
  {
    match e
    case Fresh(v, p) =>
      MemoryPages(m, t);
      FreshMachine(m, t, v, p);
      var (m', t') := Apply(m, t, e);
      FreshMachineOk(m, t, v, p, m', t');
      FreshTaskOk(m, t, v, p, m', t');
      FreshMemory(m, t, v, p, m', t');
    case Refill(v, p) => RefillOk(m, t, v, p);
    case Discard(v) => DiscardOk(m, t, v); DiscardMachine(m, t, v);
  }

  // ------------------------------------------------------------------ sequences of effects

  lemma ApplySnoc(m: Machine, t: Task, es: seq<Effect>, e: Effect)
    ensures ApplyAll(m, t, es + [e]) ==
            var (m1, t1) := ApplyAll(m, t, es); Apply(m1, t1, e)
  {
    assert (es + [e])[..|es|] == es;
  }

  lemma SimpleSnoc(pages: map<nat, Page>, es: seq<Effect>, e: Effect)
    ensures SimpleAll(pages, es + [e]) == Simple(SimpleAll(pages, es), e)
    ensures AllEnabledOn(pages, es + [e]) <==> AllEnabledOn(pages, es) && EnabledOn(SimpleAll(pages, es), e)
  {
    assert (es + [e])[..|es|] == es;
  }

  lemma LocalReflexive(m: Machine, vs: nat)
    ensures LocalTo(m, m, vs)
  {
  }

  lemma LocalTransitive(m: Machine, m1: Machine, m2: Machine, vs: nat)
    requires LocalTo(m, m1, vs) && LocalTo(m1, m2, vs)
    ensures LocalTo(m, m2, vs)
  {
  }

  /** A sequence of enabled effects refines the same sequence on the simple map. */
  lemma {:induction false} EffectsOk(m: Machine, t: Task, es: seq<Effect>)
    requires MachineOk(m) && TaskOk(m, t) && AllEnabledOn(Memory(m, t), es)
    ensures var (m', t') := ApplyAll(m, t, es);
            MachineOk(m') && TaskOk(m', t') && t'.vspace == t.vspace && LocalTo(m, m', t.vspace)
            && Memory(m', t') == SimpleAll(Memory(m, t), es)
    decreases |es|
  {
    if es != [] {
      var pre := es[..|es| - 1];
      EffectsOk(m, t, pre);
      var (m1, t1) := ApplyAll(m, t, pre);
      EffectOk(m1, t1, es[|es| - 1]);
      var (m2, t2) := Apply(m1, t1, es[|es| - 1]);
      LocalTransitive(m, m1, m2, t.vspace);
    }
  }

  lemma TaskInOrder(s: System, i: nat)
    requires SystemOk(s) && i in s.tasks
    ensures MachineOk(s.m) && TaskOk(s.m, s.tasks[i])
  {
  }

  /** A change local to task `i` that leaves it in order leaves the system in order and other memories alone. */
  lemma SystemKept(s: System, i: nat, m': Machine, t': Task)
    requires SystemOk(s) && i in s.tasks && LocalTo(s.m, m', s.tasks[i].vspace)
    requires MachineOk(m') && TaskOk(m', t') && t'.vspace == s.tasks[i].vspace
    ensures SystemOk(System(m', s.tasks[i := t']))
    ensures t' == s.tasks[i] ==> s.tasks[i := t'] == s.tasks
    ensures forall j :: j in s.tasks && j != i ==> Memory(m', s.tasks[j]) == Memory(s.m, s.tasks[j])
  {
    hide MachineOk, TaskOk, LocalTo, Memory;
    forall j | j in s.tasks && j != i
      ensures TaskOk(m', s.tasks[j]) && Memory(m', s.tasks[j]) == Memory(s.m, s.tasks[j])
    {
      LocalKeepsTask(s.m, m', s.tasks[i].vspace, s.tasks[j]);
    }
  }

  /** Effects on task `i` keep the whole system in order and no other task's memory changes. */
  lemma EffectsKeepSystem(s: System, i: nat, es: seq<Effect>)
    requires SystemOk(s) && i in s.tasks && AllEnabledOn(Memory(s.m, s.tasks[i]), es)
    ensures var (m', t') := ApplyAll(s.m, s.tasks[i], es);
            && SystemOk(System(m', s.tasks[i := t']))
            && Memory(m', t') == SimpleAll(Memory(s.m, s.tasks[i]), es)
            && (forall j :: j in s.tasks && j != i ==> Memory(m', s.tasks[j]) == Memory(s.m, s.tasks[j]))
  {
    hide SystemOk, MachineOk, TaskOk, LocalTo, Memory, ApplyAll;
    TaskInOrder(s, i);
    EffectsOk(s.m, s.tasks[i], es);
    var (m', t') := ApplyAll(s.m, s.tasks[i], es);
    SystemKept(s, i, m', t');
  }

  /** With the same index, a change local to the task's vspace leaves the same leaf entries. */
  lemma EntriesFollowIndex(m: Machine, t: Task, m': Machine, t': Task)
    requires MachineOk(m) && TaskOk(m, t) && MachineOk(m') && TaskOk(m', t')
    requires LocalTo(m, m', t.vspace) && t'.vspace == t.vspace && t'.mappedPage == t.mappedPage
    ensures m'.entries == m.entries
  {
    forall l | l in m.entries || l in m'.entries
      ensures l in m.entries && l in m'.entries && m'.entries[l] == m.entries[l]
    {
      if l.vspace == t.vspace {
        assert l == Loc(t.vspace, l.vaddr);
        assert l.vaddr in t.mappedPage;
        assert PageOk(m, t, l.vaddr) && PageOk(m', t', l.vaddr);
      }
    }
  }

  /** Allocate a granule and map it: the page-fault path, and one step of mmap and of the stack. */
  method MapZeroed(k: Kernel, task: Sel4Task, v: nat)
    requires MachineOk(k.m) && TaskOk(k.m, task.View())
    requires v % PAGE_SIZE == 0 && v !in task.mappedPage
    modifies k, task
    ensures (k.m, task.View()) == Apply(old(k.m), old(task.View()), Fresh(v, ZeroPage()))
  {
    var c := k.m.next;
    k.m := AllocFrame(k.m);
    task.MapPage(k, v, c);
  }
}
