/**
 The window protocol: a frame is mapped at the caller's own seat page, accessed there and unmapped
 again.  Every kernel call in it succeeds, and it leaves nothing behind but the bytes it wrote.
 */
module Window {
  import opened Base
  import opened Machine
  import opened TaskSpace
  import opened AddressSpace

  /** A frame capability that is not mapped anywhere and so can be moved to a window. */
  ghost predicate Loose(m: Machine, c: nat) {
    c in m.caps && m.caps[c].at.None? && m.caps[c].frame in m.frames
  }

  lemma WindowAddress(w: nat, off: nat)
    requires w % PAGE_SIZE == 0 && off < PAGE_SIZE
    ensures PageOf(w + off) == w && (w + off) % PAGE_SIZE == off
  {
  }

  /** Mapping a loose frame at a free window succeeds and gives access to its bytes. */
  lemma OpenWindow(m: Machine, c: nat, w: nat)
    requires Loose(m, c) && WindowFree(m, w)
    ensures FrameMap(m, c, INIT_VSPACE, w) == (Enter(m, c, INIT_VSPACE, w), Ok)
    ensures var m1 := Enter(m, c, INIT_VSPACE, w);
            m1.entries[Loc(INIT_VSPACE, w)] == m.caps[c].frame && m1.frames == m.frames
  {
  }

  /** Unmapping it again restores the machine, up to the contents of frames. */
  lemma CloseWindow(m: Machine, c: nat, w: nat, frames: map<nat, Page>)
    requires Loose(m, c) && WindowFree(m, w)
    ensures var m1 := Enter(m, c, INIT_VSPACE, w).(frames := frames);
            FrameUnmap(m1, c) == (m.(frames := frames), Ok)
  {
    var m1 := Enter(m, c, INIT_VSPACE, w).(frames := frames);
    assert m1.entries - {Loc(INIT_VSPACE, w)} == m.entries;
    assert m1.caps[c := FrameCap(m.caps[c].frame, None)] == m.caps by {
      assert m.caps[c] == FrameCap(m.caps[c].frame, None);
    }
  }

  predicate TempFree(m: Machine) {
    TEMP_SLOT !in m.caps && TEMP_SLOT !in m.ptCaps
  }

  /** The machine with a temporary copy of `c` in slot 0. */
  function WithTemp(m: Machine, c: nat): Machine
    requires c in m.caps
  {
    m.(caps := m.caps[TEMP_SLOT := FrameCap(m.caps[c].frame, None)])
  }

  /** A temporary copy in slot 0 is loose; deleting it restores the capabilities. */
  lemma TempCopy(m: Machine, c: nat)
    requires TempFree(m) && c in m.caps && m.caps[c].frame in m.frames && WindowFree(m, m.seat)
    ensures CopyCap(m, TEMP_SLOT, c) == (WithTemp(m, c), Ok)
    ensures Loose(WithTemp(m, c), TEMP_SLOT) && WindowFree(WithTemp(m, c), m.seat)
    ensures forall frames :: DeleteCap(WithTemp(m, c).(frames := frames), TEMP_SLOT) == (m.(frames := frames), Ok)
  {
    CompleteMonotone(m, WithTemp(m, c), INIT_VSPACE, m.seat);
    assert WithTemp(m, c).caps - {TEMP_SLOT} == m.caps;
  }

  /** Fill part of a loose frame through the seat window: map, copy, unmap. */
  method FillFrame(k: Kernel, c: nat, off: nat, data: seq<byte>)
    requires MachineOk(k.m) && Loose(k.m, c) && off + |data| <= PAGE_SIZE && off < PAGE_SIZE
    modifies k
    ensures k.m == Poke(old(k.m), c, off, data)
  {
    ghost var m0 := k.m;
    OpenWindow(k.m, c, k.m.seat);
    var (m1, mapped) := FrameMap(k.m, c, INIT_VSPACE, k.m.seat);
    assert mapped == Ok;
    k.m := m1;
    WindowAddress(k.m.seat, off);
    k.m := Store(k.m, INIT_VSPACE, k.m.seat + off, data);
    CloseWindow(m0, c, m0.seat, k.m.frames);
    var (m2, unmapped) := FrameUnmap(k.m, c);
    assert unmapped == Ok;
    k.m := m2;
  }
}
