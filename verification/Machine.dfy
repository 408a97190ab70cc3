/**
 The part of seL4 that the address-space code relies on: frames of one page, zeroed when they are
 retyped; frame capabilities with at most one mapping each; leaf page-table entries; and a tree of
 translation tables.  The steps are total functions: a kernel call that fails leaves the machine
 as it was and says why.
 */
module Machine {
  import opened Base

  /** The vspace of the calling thread itself. */
  const INIT_VSPACE: nat := 3

  /** The slot that the copy loops use for a temporary copy of a frame capability. */
  const TEMP_SLOT: nat := 0

  /** Bytes covered by one table of each level, the root (level 0) first. */
  ghost predicate ValidSpans(s: seq<nat>) {
    && |s| >= 1
    && (forall i :: 0 <= i < |s| ==> s[i] > 0)
    && (forall i :: 0 <= i < |s| - 1 ==> s[i] % s[i + 1] == 0)
    && s[|s| - 1] % PAGE_SIZE == 0
  }

  predicate PositiveSpans(s: seq<nat>) {
    |s| >= 1 && forall i :: 0 <= i < |s| ==> s[i] > 0
  }

  type Spans = s: seq<nat> | PositiveSpans(s) witness [PAGE_SIZE]

  datatype Loc = Loc(vspace: nat, vaddr: nat)
  datatype FrameCap = FrameCap(frame: nat, at: Option<Loc>)
  datatype Table = Table(vspace: nat, level: nat, base: nat)

  datatype Machine = Machine(
    spans: Spans,
    seat: nat,                            // page_seat_vaddr(): the window page
    ext: nat,                             // a second window page, used while cloning
    frames: map<nat, Page>,               // frame contents
    caps: map<nat, FrameCap>,             // frame capabilities by slot
    entries: map<Loc, nat>,               // leaf entries: which frame a page is mapped to
    tables: set<Table>,                   // installed translation tables
    ptCaps: map<nat, Option<Table>>,      // page-table capabilities by slot
    next: nat)                            // the next unused slot

  datatype Error = FailedLookup | DeleteFirst | InvalidCapability | InvalidArgument | AlignmentError
  datatype Outcome = Ok | Err(error: Error)

  function TableAt(m: Machine, vs: nat, v: nat, level: nat): (t: Table)
    requires level < |m.spans|
  {
    Table(vs, level, RoundDown(v, m.spans[level]))
  }

  predicate HasTable(m: Machine, vs: nat, v: nat, level: nat)
    requires level < |m.spans|
  {
    TableAt(m, vs, v, level) in m.tables
  }

  /** The levels of the walk to `v`, from `level` down, whose table is absent. */
  function MissingFrom(m: Machine, vs: nat, v: nat, level: nat): (ls: seq<nat>)
    requires level <= |m.spans|
    ensures |ls| <= |m.spans| - level
    ensures forall i :: 0 <= i < |ls| ==> level <= ls[i] < |m.spans|
    decreases |m.spans| - level
  {
    if level == |m.spans| then []
    else
      var rest := MissingFrom(m, vs, v, level + 1);
      if HasTable(m, vs, v, level) then rest else [level] + rest
  }

  lemma {:induction false} MissingIff(m: Machine, vs: nat, v: nat, level: nat, l: nat)
    requires level <= l < |m.spans|
    ensures l in MissingFrom(m, vs, v, level) <==> !HasTable(m, vs, v, l)
    decreases |m.spans| - level
  {
    if level < l {
      MissingIff(m, vs, v, level + 1, l);
    }
  }

  /** Level 0 is the vspace root itself; levels 1.. are translation tables. */
  function Missing(m: Machine, vs: nat, v: nat): (ls: seq<nat>)
    ensures |ls| < |m.spans|
    ensures forall i :: 0 <= i < |ls| ==> 1 <= ls[i] < |m.spans|
  {
    MissingFrom(m, vs, v, 1)
  }

  predicate ChainComplete(m: Machine, vs: nat, v: nat) {
    Missing(m, vs, v) == []
  }

  // ------------------------------------------------------------------ kernel calls

  /** Retype one granule into the next slot; the frame is zeroed. */
  function AllocFrame(m: Machine): Machine {
    AddFrame(m, ZeroPage())
  }

  function AddFrame(m: Machine, p: Page): Machine {
    m.(frames := m.frames[m.next := p], caps := m.caps[m.next := FrameCap(m.next, None)], next := m.next + 1)
  }

  function AllocPt(m: Machine): Machine {
    m.(ptCaps := m.ptCaps[m.next := None], next := m.next + 1)
  }

  function FrameMap(m: Machine, c: nat, vs: nat, v: nat): (Machine, Outcome) {
    if c !in m.caps then (m, Err(InvalidCapability))
    else if m.caps[c].at == Some(Loc(vs, v)) then (m, Ok)
    else if m.caps[c].at.Some? then (m, Err(InvalidArgument))
    else if v % PAGE_SIZE != 0 then (m, Err(AlignmentError))
    else if !ChainComplete(m, vs, v) then (m, Err(FailedLookup))
    else if Loc(vs, v) in m.entries then (m, Err(DeleteFirst))
    else (Enter(m, c, vs, v), Ok)
  }

  function Enter(m: Machine, c: nat, vs: nat, v: nat): Machine
    requires c in m.caps
  {
    m.(entries := m.entries[Loc(vs, v) := m.caps[c].frame],
       caps := m.caps[c := FrameCap(m.caps[c].frame, Some(Loc(vs, v)))])
  }

  function FrameUnmap(m: Machine, c: nat): (Machine, Outcome) {
    if c !in m.caps then (m, Err(InvalidCapability))
    else (Leave(m, c), Ok)
  }

  /** Drop the mapping of `c`, if it has one; the entry goes only if it still is this frame's. */
  function Leave(m: Machine, c: nat): Machine
    requires c in m.caps
  {
    match m.caps[c].at
    case None => m
    case Some(l) =>
      var entries := if l in m.entries && m.entries[l] == m.caps[c].frame then m.entries - {l} else m.entries;
      m.(entries := entries, caps := m.caps[c := FrameCap(m.caps[c].frame, None)])
  }

  /** Install the page table in `slot` at the highest level that the walk to `v` lacks. */
  function PtMap(m: Machine, slot: nat, vs: nat, v: nat): (Machine, Outcome) {
    if slot !in m.ptCaps then (m, Err(InvalidCapability))
    else if m.ptCaps[slot].Some? then (m, Err(InvalidArgument))
    else
      var ls := Missing(m, vs, v);
      if ls == [] then (m, Err(DeleteFirst))
      else
        var t := TableAt(m, vs, v, ls[0]);
        (m.(tables := m.tables + {t}, ptCaps := m.ptCaps[slot := Some(t)]), Ok)
  }

  /** A copied frame capability is unmapped; the destination slot must be empty. */
  function CopyCap(m: Machine, dst: nat, src: nat): (Machine, Outcome) {
    if src !in m.caps then (m, Err(FailedLookup))
    else if dst in m.caps || dst in m.ptCaps then (m, Err(DeleteFirst))
    else (m.(caps := m.caps[dst := FrameCap(m.caps[src].frame, None)]), Ok)
  }

  /** Deleting a mapped frame capability unmaps it first. */
  function DeleteCap(m: Machine, c: nat): (Machine, Outcome) {
    if c !in m.caps then (m, Ok)
    else
      var m1 := Leave(m, c);
      (m1.(caps := m1.caps - {c}), Ok)
  }

  // ------------------------------------------------------------------ memory accesses

  predicate Backed(m: Machine, vs: nat, a: nat) {
    Loc(vs, PageOf(a)) in m.entries && m.entries[Loc(vs, PageOf(a))] in m.frames
  }

  /** Write `data` at address `a` of a vspace; the bytes lie in one mapped page. */
  function Store(m: Machine, vs: nat, a: nat, data: seq<byte>): Machine
    requires Backed(m, vs, a) && a % PAGE_SIZE + |data| <= PAGE_SIZE
  {
    var f := m.entries[Loc(vs, PageOf(a))];
    m.(frames := m.frames[f := Splice(m.frames[f], a % PAGE_SIZE, data)])
  }

  /** Read `n` bytes at address `a` of a vspace; the bytes lie in one mapped page. */
  function Load(m: Machine, vs: nat, a: nat, n: nat): (data: seq<byte>)
    requires Backed(m, vs, a) && a % PAGE_SIZE + n <= PAGE_SIZE
    ensures |data| == n
  {
    m.frames[m.entries[Loc(vs, PageOf(a))]][a % PAGE_SIZE..a % PAGE_SIZE + n]
  }

  /** The machine with `data` written into frame `f` at offset `off`. */
  function Poke(m: Machine, f: nat, off: nat, data: seq<byte>): Machine
    requires f in m.frames && off + |data| <= PAGE_SIZE
  {
    m.(frames := m.frames[f := Splice(m.frames[f], off, data)])
  }

  class Kernel {
    var m: Machine
    constructor (m0: Machine)
      ensures m == m0
    {
      m := m0;
    }
  }
}
