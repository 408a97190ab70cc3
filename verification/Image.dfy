/**
 `footprint` and `map_image`: all frames of the footprint are allocated first, filled segment by
 segment through the window, and mapped into the child at the end.
 */
module Image {
  import opened Base
  import opened Machine
  import opened TaskSpace
  import opened AddressSpace
  import opened Window
  import opened CopyLoop
  import opened Elf

  // ------------------------------------------------------------------ footprint

  datatype Range = Range(start: nat, end: nat)

  function CoarsenFootprint(r: Range, granularity: nat): (c: Range)
    requires granularity > 0
    ensures c.start <= r.start && r.end <= c.end
    ensures c.start % granularity == 0 && c.end % granularity == 0
    ensures r.start < c.start + granularity && c.end < r.end + granularity
  {
    Range(RoundDown(r.start, granularity), RoundUp(r.end, granularity))
  }

  function MinAddr(segs: seq<Segment>): (a: nat)
    requires segs != []
    ensures forall i :: 0 <= i < |segs| ==> a <= segs[i].vaddr
  {
    if |segs| == 1 then segs[0].vaddr
    else
      var rest := MinAddr(segs[1..]);
      assert forall i :: 1 <= i < |segs| ==> segs[i] == segs[1..][i - 1];
      if segs[0].vaddr < rest then segs[0].vaddr else rest
  }

  function MaxEnd(segs: seq<Segment>): (a: nat)
    requires segs != []
    ensures forall i :: 0 <= i < |segs| ==> segs[i].vaddr + segs[i].memsz <= a
  {
    if |segs| == 1 then segs[0].vaddr + segs[0].memsz
    else
      var rest := MaxEnd(segs[1..]);
      assert forall i :: 1 <= i < |segs| ==> segs[i] == segs[1..][i - 1];
      if segs[0].vaddr + segs[0].memsz > rest then segs[0].vaddr + segs[0].memsz else rest
  }

  function Footprint(segs: seq<Segment>): (r: Range)
    requires segs != []
  {
    CoarsenFootprint(Range(MinAddr(segs), MaxEnd(segs)), PAGE_SIZE)
  }

  /** A page-aligned range that holds every segment. */
  ghost predicate Holds(fp: Range, segs: seq<Segment>) {
    && fp.start % PAGE_SIZE == 0 && fp.end % PAGE_SIZE == 0 && fp.start <= fp.end
    && forall i :: 0 <= i < |segs| ==>
         fp.start <= RoundDown(segs[i].vaddr, PAGE_SIZE) &&
         RoundUp(segs[i].vaddr + segs[i].memsz, PAGE_SIZE) <= fp.end
  }

  /** The footprint holds every segment, and it is the least such range. */
  lemma FootprintHolds(segs: seq<Segment>)
    requires segs != []
    ensures Holds(Footprint(segs), segs)
  {
    var lo, hi := MinAddr(segs), MaxEnd(segs);
    forall i | 0 <= i < |segs|
      ensures Footprint(segs).start <= RoundDown(segs[i].vaddr, PAGE_SIZE)
      ensures RoundUp(segs[i].vaddr + segs[i].memsz, PAGE_SIZE) <= Footprint(segs).end
    {
      RoundMonotone(lo, segs[i].vaddr);
      RoundMonotone(segs[i].vaddr + segs[i].memsz, hi);
    }
    assert lo <= segs[0].vaddr <= hi;
  }

  lemma RoundMonotone(a: nat, b: nat)
    requires a <= b
    ensures RoundDown(a, PAGE_SIZE) <= RoundDown(b, PAGE_SIZE)
    ensures RoundUp(a, PAGE_SIZE) <= RoundUp(b, PAGE_SIZE)
  {
  }

  lemma {:induction false} MinAddrAttained(segs: seq<Segment>)
    requires segs != []
    ensures exists i :: 0 <= i < |segs| && segs[i].vaddr == MinAddr(segs)
  {
    if |segs| > 1 {
      MinAddrAttained(segs[1..]);
      var j :| 0 <= j < |segs[1..]| && segs[1..][j].vaddr == MinAddr(segs[1..]);
      assert segs[1..][j] == segs[j + 1];
      assert segs[0].vaddr == MinAddr(segs) || segs[j + 1].vaddr == MinAddr(segs);
    } else {
      assert segs[0].vaddr == MinAddr(segs);
    }
  }

  lemma {:induction false} MaxEndAttained(segs: seq<Segment>)
    requires segs != []
    ensures exists i :: 0 <= i < |segs| && segs[i].vaddr + segs[i].memsz == MaxEnd(segs)
  {
    if |segs| > 1 {
      MaxEndAttained(segs[1..]);
      var j :| 0 <= j < |segs[1..]| && segs[1..][j].vaddr + segs[1..][j].memsz == MaxEnd(segs[1..]);
      assert segs[1..][j] == segs[j + 1];
      assert segs[0].vaddr + segs[0].memsz == MaxEnd(segs) || segs[j + 1].vaddr + segs[j + 1].memsz == MaxEnd(segs);
    } else {
      assert segs[0].vaddr + segs[0].memsz == MaxEnd(segs);
    }
  }

  /** Any aligned range that holds every segment contains the footprint. */
  lemma FootprintLeast(segs: seq<Segment>, r: Range)
    requires segs != [] && Holds(r, segs)
    ensures r.start <= Footprint(segs).start && Footprint(segs).end <= r.end
  {
    MinAddrAttained(segs);
    MaxEndAttained(segs);
  }

  // ------------------------------------------------------------------ a vector of frames

  /** The page vector as a memory that starts at `lo`. */
  function AsPages(ps: seq<Page>, lo: nat): Pages
    requires lo % PAGE_SIZE == 0
  {
    map v | lo <= v < lo + |ps| * PAGE_SIZE && v % PAGE_SIZE == 0 :: ps[(v - lo) / PAGE_SIZE]
  }

  lemma AsPagesAt(ps: seq<Page>, lo: nat, i: nat)
    requires lo % PAGE_SIZE == 0 && i < |ps|
    ensures lo + i * PAGE_SIZE in AsPages(ps, lo) && AsPages(ps, lo)[lo + i * PAGE_SIZE] == ps[i]
  {
  }

  lemma AsPagesUpdate(ps: seq<Page>, lo: nat, i: nat, p: Page)
    requires lo % PAGE_SIZE == 0 && i < |ps|
    ensures AsPages(ps[i := p], lo) == AsPages(ps, lo)[lo + i * PAGE_SIZE := p]
  {
    AsPagesAt(ps, lo, i);
  }

  /** The data loop of one segment: `n` pages from index `idx`, the first one from offset `off`. */
  function FillData(ps: seq<Page>, idx: nat, n: nat, off: nat, data: seq<byte>): (r: seq<Page>)
    requires idx + n <= |ps| && off < PAGE_SIZE
    ensures |r| == |ps|
    decreases n
  {
    if n == 0 then ps
    else
      var c := if PAGE_SIZE - off < |data| then PAGE_SIZE - off else |data|;
      FillData(ps[idx := Splice(ps[idx], off, data[..c])], idx + 1, n - 1, 0, data[c..])
  }

  /** `n` pages from `off` on hold `len` bytes. */
  predicate Fits(n: nat, off: nat, len: nat) {
    off + len <= n * PAGE_SIZE && (n == 0 ==> off == 0 && len == 0)
  }

  /** What one turn of the loop leaves. */
  function Turned(ps: seq<Page>, idx: nat, off: nat, data: seq<byte>): (r: seq<Page>)
    requires idx < |ps| && off < PAGE_SIZE
    ensures |r| == |ps|
  {
    var c := if PAGE_SIZE - off < |data| then PAGE_SIZE - off else |data|;
    ps[idx := Splice(ps[idx], off, data[..c])]
  }

  lemma FillDataTurn(ps: seq<Page>, idx: nat, n: nat, off: nat, data: seq<byte>)
    requires 0 < n && idx + n <= |ps| && off < PAGE_SIZE
    ensures var c := if PAGE_SIZE - off < |data| then PAGE_SIZE - off else |data|;
            FillData(ps, idx, n, off, data) == FillData(Turned(ps, idx, off, data), idx + 1, n - 1, 0, data[c..])
  {
  }

  /** The loop writes the segment's data at its address, as a plain write into the memory would. */
  lemma {:induction false} FillDataIsWrite(ps: seq<Page>, lo: nat, idx: nat, n: nat, off: nat, data: seq<byte>)
    requires lo % PAGE_SIZE == 0 && idx + n <= |ps| && off < PAGE_SIZE && Fits(n, off, |data|)
    ensures AsPages(FillData(ps, idx, n, off, data), lo) ==
            WritePages(AsPages(ps, lo), lo + idx * PAGE_SIZE + off, data)
    decreases n
  {
    hide AsPages, FillData, WritePages, Turned, ChunkLen, Splice, PageOf;
    var a := lo + idx * PAGE_SIZE + off;
    if data == [] {
      FillNothing(ps, idx, n, off);
      WriteNothing(AsPages(ps, lo), a);
    } else {
      var c := if PAGE_SIZE - off < |data| then PAGE_SIZE - off else |data|;
      FillDataTurn(ps, idx, n, off, data);
      FillTurn(ps, lo, idx, off, data);
      WriteTurn(AsPages(ps, lo), a, data);
      if c < |data| {
        FillDataIsWrite(Turned(ps, idx, off, data), lo, idx + 1, n - 1, 0, data[c..]);
      } else {
        assert data[c..] == [];
        FillNothing(Turned(ps, idx, off, data), idx + 1, n - 1, 0);
        WriteNothing(AsPages(Turned(ps, idx, off, data), lo), a + c);
      }
    }
  }

  lemma {:induction false} FillNothing(ps: seq<Page>, idx: nat, n: nat, off: nat)
    requires idx + n <= |ps| && off < PAGE_SIZE
    ensures FillData(ps, idx, n, off, []) == ps
    decreases n
  {
    if n > 0 {
      assert Splice(ps[idx], off, []) == ps[idx];
      assert ps[idx := ps[idx]] == ps;
      FillNothing(ps, idx + 1, n - 1, 0);
    }
  }

  /** The first chunk of the loop is the first chunk of the write. */
  lemma FillTurn(ps: seq<Page>, lo: nat, idx: nat, off: nat, data: seq<byte>)
    requires lo % PAGE_SIZE == 0 && idx < |ps| && off < PAGE_SIZE
    ensures var a := lo + idx * PAGE_SIZE + off;
            var c := if PAGE_SIZE - off < |data| then PAGE_SIZE - off else |data|;
            && c == ChunkLen(a, |data|) && PageOf(a) == lo + idx * PAGE_SIZE && a % PAGE_SIZE == off
            && PageOf(a) in AsPages(ps, lo) && AsPages(ps, lo)[PageOf(a)] == ps[idx]
            && AsPages(Turned(ps, idx, off, data), lo) ==
               AsPages(ps, lo)[PageOf(a) := Splice(ps[idx], off, data[..c])]
  {
    var a := lo + idx * PAGE_SIZE + off;
    var c := if PAGE_SIZE - off < |data| then PAGE_SIZE - off else |data|;
    assert PageOf(a) == lo + idx * PAGE_SIZE && a % PAGE_SIZE == off;
    AsPagesAt(ps, lo, idx);
    AsPagesUpdate(ps, lo, idx, Splice(ps[idx], off, data[..c]));
  }

  // ------------------------------------------------------------------ one segment

  /** Index of the segment's first page in the vector. */
  function PageIndex(fp: Range, s: Segment): nat
    requires fp.start <= RoundDown(s.vaddr, PAGE_SIZE)
  {
    (CoarsenFootprint(Range(s.vaddr, s.vaddr + s.memsz), PAGE_SIZE).start - fp.start) / PAGE_SIZE
  }

  /** Pages spanned by `len` bytes at the segment's address. */
  function PagesSpanned(s: Segment, len: nat): nat {
    var c := CoarsenFootprint(Range(s.vaddr, s.vaddr + len), PAGE_SIZE);
    (c.end - c.start) / PAGE_SIZE
  }

  function NumPages(fp: Range): nat
    requires fp.start <= fp.end
  {
    (fp.end - fp.start) / PAGE_SIZE
  }

  /** No page index leaves the vector, and the data ends on the last page it spans. */
  lemma SegmentFits(fp: Range, segs: seq<Segment>, i: nat)
    requires Holds(fp, segs) && i < |segs| && segs[i].filesz <= segs[i].memsz
    ensures var s := segs[i];
            && PageIndex(fp, s) + PagesSpanned(s, s.memsz) <= NumPages(fp)
            && PagesSpanned(s, s.filesz) <= PagesSpanned(s, s.memsz)
            && fp.start + PageIndex(fp, s) * PAGE_SIZE + s.vaddr % PAGE_SIZE == s.vaddr
            && Fits(PagesSpanned(s, s.filesz), s.vaddr % PAGE_SIZE, s.filesz)
            && (s.filesz > 0 ==> (PagesSpanned(s, s.filesz) - 1) * PAGE_SIZE < s.vaddr % PAGE_SIZE + s.filesz)
  {
    var s := segs[i];
    RoundMonotone(s.vaddr + s.filesz, s.vaddr + s.memsz);
    assert fp.start <= RoundDown(s.vaddr, PAGE_SIZE) && RoundUp(s.vaddr + s.memsz, PAGE_SIZE) <= fp.end;
    SpannedFacts(s, s.filesz);
    SpannedFacts(s, s.memsz);
    IndexFacts(fp.start, RoundDown(s.vaddr, PAGE_SIZE));
    IndexFacts(fp.start, fp.end);
  }

  lemma SpannedFacts(s: Segment, len: nat)
    ensures PagesSpanned(s, len) * PAGE_SIZE == RoundUp(s.vaddr + len, PAGE_SIZE) - RoundDown(s.vaddr, PAGE_SIZE)
    ensures RoundDown(s.vaddr, PAGE_SIZE) == s.vaddr - s.vaddr % PAGE_SIZE
  {
    IndexFacts(RoundDown(s.vaddr, PAGE_SIZE), RoundUp(s.vaddr + len, PAGE_SIZE));
  }

  lemma IndexFacts(lo: nat, a: nat)
    requires lo % PAGE_SIZE == 0 && a % PAGE_SIZE == 0 && lo <= a
    ensures (a - lo) / PAGE_SIZE * PAGE_SIZE == a - lo
  {
  }

  function SegmentData(elf: seq<byte>, s: Segment): seq<byte>
    requires ValidSegment(elf, s)
  {
    elf[s.offset..s.offset + s.filesz]
  }

  ghost predicate ImagePre(fp: Range, elf: seq<byte>, segs: seq<Segment>) {
    Holds(fp, segs) && ValidImage(elf, segs)
  }

  /** The frames after the first `n` segments have been copied. */
  ghost function FillSegments(ps: seq<Page>, fp: Range, elf: seq<byte>, segs: seq<Segment>, n: nat): (r: seq<Page>)
    requires ImagePre(fp, elf, segs) && |ps| == NumPages(fp) && n <= |segs|
    ensures |r| == |ps|
    decreases n
  {
    if n == 0 then ps
    else
      var s := segs[n - 1];
      SegmentFits(fp, segs, n - 1);
      FillData(FillSegments(ps, fp, elf, segs, n - 1), PageIndex(fp, s), PagesSpanned(s, s.filesz),
               s.vaddr % PAGE_SIZE, SegmentData(elf, s))
  }

  function ZeroFrames(n: nat): (ps: seq<Page>)
    ensures |ps| == n
  {
    seq(n, _ => ZeroPage())
  }

  /** The frames after the first `i` segments, starting from zeroed ones. */
  ghost function Frames(fp: Range, elf: seq<byte>, segs: seq<Segment>, i: nat): (ps: seq<Page>)
    requires ImagePre(fp, elf, segs) && i <= |segs|
    ensures |ps| == NumPages(fp)
  {
    FillSegments(ZeroFrames(NumPages(fp)), fp, elf, segs, i)
  }

  /** The byte at `x` in these frames. */
  ghost function FrameByte(fp: Range, elf: seq<byte>, segs: seq<Segment>, n: nat, x: nat): Option<byte>
    requires ImagePre(fp, elf, segs) && n <= |segs|
  {
    ByteAt(AsPages(Frames(fp, elf, segs, n), fp.start), x)
  }

  /** On the footprint the filled frames hold the image's bytes, zero where no file byte falls. */
  lemma {:induction false} FillSegmentsByte(fp: Range, elf: seq<byte>, segs: seq<Segment>, n: nat, x: nat)
    requires ImagePre(fp, elf, segs) && n <= |segs| && fp.start <= x < fp.end
    ensures FrameByte(fp, elf, segs, n, x) == Some(ImageByte(elf, segs, n, x))
    decreases n
  {
    hide FrameByte, Holds, ValidImage;
    if n == 0 {
      ZeroFrameByte(fp, elf, segs, x);
    } else {
      FillSegmentsByte(fp, elf, segs, n - 1, x);
      FillSegmentsStep(fp, elf, segs, n, x);
    }
  }

  lemma ZeroFrameByte(fp: Range, elf: seq<byte>, segs: seq<Segment>, x: nat)
    requires ImagePre(fp, elf, segs) && fp.start <= x < fp.end
    ensures FrameByte(fp, elf, segs, 0, x) == Some(0)
  {
    FootprintPage(fp, x);
    hide ValidImage;
  }

  lemma FootprintPage(fp: Range, x: nat)
    requires fp.start % PAGE_SIZE == 0 && fp.end % PAGE_SIZE == 0 && fp.start <= x < fp.end
    ensures PageOf(x) in AsPages(ZeroFrames(NumPages(fp)), fp.start)
  {
    IndexFacts(fp.start, fp.end);
  }

  lemma AllMappedIn(ps: seq<Page>, fp: Range, a: nat, n: nat)
    requires fp.start % PAGE_SIZE == 0 && fp.end % PAGE_SIZE == 0 && fp.start <= fp.end && |ps| == NumPages(fp)
    requires fp.start <= a && a + n <= fp.end
    ensures AllMapped(AsPages(ps, fp.start).Keys, a, n)
  {
    IndexFacts(fp.start, fp.end);
  }

  lemma SegmentStartsInside(fp: Range, segs: seq<Segment>, i: nat)
    requires Holds(fp, segs) && i < |segs|
    ensures fp.start <= RoundDown(segs[i].vaddr, PAGE_SIZE)
  {
  }

  lemma SegmentInside(fp: Range, segs: seq<Segment>, i: nat)
    requires Holds(fp, segs) && i < |segs| && segs[i].filesz <= segs[i].memsz
    ensures fp.start <= segs[i].vaddr && segs[i].vaddr + segs[i].filesz <= fp.end
    ensures fp.start % PAGE_SIZE == 0 && fp.end % PAGE_SIZE == 0 && fp.start <= fp.end
  {
    assert fp.start <= RoundDown(segs[i].vaddr, PAGE_SIZE);
    assert RoundUp(segs[i].vaddr + segs[i].memsz, PAGE_SIZE) <= fp.end;
  }

  /** Copying data into any vector of frames, byte by byte. */
  lemma FillOneByte(ps: seq<Page>, fp: Range, a: nat, data: seq<byte>, idx: nat, k: nat, off: nat, x: nat)
    requires fp.start % PAGE_SIZE == 0 && fp.end % PAGE_SIZE == 0 && fp.start <= fp.end && |ps| == NumPages(fp)
    requires fp.start <= a && a + |data| <= fp.end
    requires idx + k <= |ps| && off < PAGE_SIZE && Fits(k, off, |data|)
    requires a == fp.start + idx * PAGE_SIZE + off
    ensures ByteAt(AsPages(FillData(ps, idx, k, off, data), fp.start), x) ==
            if a <= x < a + |data| then Some(data[x - a]) else ByteAt(AsPages(ps, fp.start), x)
  {
    hide *;
    FillDataIsWrite(ps, fp.start, idx, k, off, data);
    AllMappedIn(ps, fp, a, |data|);
    WritePagesByte(AsPages(ps, fp.start), a, data, x);
    ReachAllIff(AsPages(ps, fp.start).Keys, a, |data|);
  }

  /** Where a segment's data goes in the page vector. */
  ghost predicate Placed(fp: Range, elf: seq<byte>, s: Segment) {
    && fp.start <= RoundDown(s.vaddr, PAGE_SIZE) && fp.start <= fp.end && ValidSegment(elf, s)
    && PageIndex(fp, s) + PagesSpanned(s, s.filesz) <= NumPages(fp)
  }

  lemma SegmentPlaced(fp: Range, elf: seq<byte>, segs: seq<Segment>, i: nat)
    requires ImagePre(fp, elf, segs) && i < |segs|
    ensures Placed(fp, elf, segs[i])
  {
    assert ValidSegment(elf, segs[i]);
    SegmentFits(fp, segs, i);
    SegmentStartsInside(fp, segs, i);
    hide PageIndex, PagesSpanned, NumPages, Fits;
  }

  ghost function WithSegment(ps: seq<Page>, fp: Range, elf: seq<byte>, s: Segment): seq<Page>
    requires Placed(fp, elf, s) && |ps| == NumPages(fp)
  {
    FillData(ps, PageIndex(fp, s), PagesSpanned(s, s.filesz), s.vaddr % PAGE_SIZE, SegmentData(elf, s))
  }

  lemma FramesTurn(fp: Range, elf: seq<byte>, segs: seq<Segment>, n: nat)
    requires ImagePre(fp, elf, segs) && 0 < n <= |segs|
    ensures Placed(fp, elf, segs[n - 1])
    ensures Frames(fp, elf, segs, n) == WithSegment(Frames(fp, elf, segs, n - 1), fp, elf, segs[n - 1])
  {
    SegmentPlaced(fp, elf, segs, n - 1);
    hide FillData, PagesSpanned, PageIndex, ZeroFrames, Placed, SegmentData, ImagePre;
  }

  /** One segment's data in the frames, byte by byte. */
  lemma SegmentBytes(ps: seq<Page>, fp: Range, elf: seq<byte>, segs: seq<Segment>, i: nat, x: nat)
    requires ImagePre(fp, elf, segs) && i < |segs| && Placed(fp, elf, segs[i]) && |ps| == NumPages(fp)
    ensures var s := segs[i];
            ByteAt(AsPages(WithSegment(ps, fp, elf, s), fp.start), x) ==
            if s.vaddr <= x < s.vaddr + s.filesz then Some(elf[s.offset + (x - s.vaddr)])
            else ByteAt(AsPages(ps, fp.start), x)
  {
    var s := segs[i];
    hide Holds, AsPages, ByteAt, FillData, PageIndex, PagesSpanned, Fits, NumPages, RoundDown, ValidImage;
    SegmentFits(fp, segs, i);
    SegmentInside(fp, segs, i);
    FillOneByte(ps, fp, s.vaddr, SegmentData(elf, s), PageIndex(fp, s), PagesSpanned(s, s.filesz),
                s.vaddr % PAGE_SIZE, x);
  }

  lemma FillSegmentsStep(fp: Range, elf: seq<byte>, segs: seq<Segment>, n: nat, x: nat)
    requires ImagePre(fp, elf, segs) && 0 < n <= |segs|
    ensures var s := segs[n - 1];
            && ValidSegment(elf, s)
            && FrameByte(fp, elf, segs, n, x) ==
               if s.vaddr <= x < s.vaddr + s.filesz then Some(elf[s.offset + (x - s.vaddr)])
               else FrameByte(fp, elf, segs, n - 1, x)
  {
    hide AsPages, ByteAt, Frames, WithSegment, ValidImage, Holds, NumPages, PageIndex, PagesSpanned;
    FramesTurn(fp, elf, segs, n);
    SegmentBytes(Frames(fp, elf, segs, n - 1), fp, elf, segs, n - 1, x);
  }

  // ------------------------------------------------------------------ frames on the machine

  /** Frames allocated one after another, with their contents. */
  function AddFrames(m: Machine, ps: seq<Page>): Machine
    decreases |ps|
  {
    if ps == [] then m else AddFrames(AddFrame(m, ps[0]), ps[1..])
  }

  lemma {:induction false} AddFramesSnoc(m: Machine, ps: seq<Page>, p: Page)
    ensures AddFrames(m, ps + [p]) == AddFrame(AddFrames(m, ps), p)
    decreases |ps|
  {
    if ps == [] {
      assert (ps + [p])[1..] == [];
    } else {
      assert (ps + [p])[1..] == ps[1..] + [p];
      AddFramesSnoc(AddFrame(m, ps[0]), ps[1..], p);
    }
  }

  /** Writing to an older frame and allocating new ones commute. */
  lemma {:induction false} PokeCommutes(m: Machine, ps: seq<Page>, c: nat, off: nat, data: seq<byte>)
    requires c in m.frames && c < m.next && off + |data| <= PAGE_SIZE
    ensures c in AddFrames(m, ps).frames
    ensures Poke(AddFrames(m, ps), c, off, data) == AddFrames(Poke(m, c, off, data), ps)
    decreases |ps|
  {
    if ps != [] {
      var p := Splice(m.frames[c], off, data);
      assert m.frames[m.next := ps[0]][c := p] == m.frames[c := p][m.next := ps[0]];
      hide Splice;
      PokeCommutes(AddFrame(m, ps[0]), ps[1..], c, off, data);
    }
  }

  /** Mapping an older frame and allocating new ones commute. */
  lemma {:induction false} EnterCommutes(m: Machine, ps: seq<Page>, c: nat, vs: nat, v: nat)
    requires c in m.caps && c < m.next
    ensures c in AddFrames(m, ps).caps && AddFrames(m, ps).caps[c] == m.caps[c]
    ensures Enter(AddFrames(m, ps), c, vs, v) == AddFrames(Enter(m, c, vs, v), ps)
    decreases |ps|
  {
    if ps != [] {
      var e := FrameCap(m.caps[c].frame, Some(Loc(vs, v)));
      var n := FrameCap(m.next, None);
      assert m.caps[m.next := n][c := e] == m.caps[c := e][m.next := n];
      EnterCommutes(AddFrame(m, ps[0]), ps[1..], c, vs, v);
    }
  }

  lemma {:induction false} AddFramesPoke(m: Machine, ps: seq<Page>, i: nat, off: nat, data: seq<byte>)
    requires i < |ps| && off + |data| <= PAGE_SIZE
    ensures m.next + i in AddFrames(m, ps).frames
    ensures Poke(AddFrames(m, ps), m.next + i, off, data) == AddFrames(m, ps[i := Splice(ps[i], off, data)])
    decreases |ps|
  {
    var ps' := ps[i := Splice(ps[i], off, data)];
    var m1 := AddFrame(m, ps[0]);
    if i == 0 {
      assert ps'[1..] == ps[1..];
      assert m.frames[m.next := ps[0]][m.next := ps'[0]] == m.frames[m.next := ps'[0]];
      hide Splice;
      PokeCommutes(m1, ps[1..], m.next, off, data);
    } else {
      assert ps'[1..] == ps[1..][i - 1 := Splice(ps[1..][i - 1], off, data)];
      hide Splice;
      AddFramesPoke(m1, ps[1..], i - 1, off, data);
    }
  }

  lemma {:induction false} AddFramesOk(m: Machine, ps: seq<Page>)
    requires MachineOk(m)
    ensures MachineOk(AddFrames(m, ps))
    ensures var m' := AddFrames(m, ps);
            m'.next == m.next + |ps| && m'.tables == m.tables && m'.entries == m.entries && m'.spans == m.spans
    decreases |ps|
  {
    hide MachineOk;
    if ps != [] {
      AddFrameOk(m, ps[0]);
      AddFramesOk(AddFrame(m, ps[0]), ps[1..]);
    }
  }

  lemma {:induction false} AddFramesKeep(m: Machine, ps: seq<Page>, c: nat)
    requires Loose(m, c) && c < m.next && m.caps[c].frame < m.next
    ensures Loose(AddFrames(m, ps), c)
    decreases |ps|
  {
    if ps != [] { AddFramesKeep(AddFrame(m, ps[0]), ps[1..], c); }
  }

  lemma {:induction false} AddFramesLoose(m: Machine, ps: seq<Page>, i: nat)
    requires i < |ps|
    ensures Loose(AddFrames(m, ps), m.next + i)
    decreases |ps|
  {
    var m1 := AddFrame(m, ps[0]);
    if i == 0 {
      AddFramesKeep(m1, ps[1..], m.next);
    } else {
      AddFramesLoose(m1, ps[1..], i - 1);
    }
  }

  lemma FrameMapSucceeds(m: Machine, c: nat, vs: nat, v: nat)
    requires Loose(m, c) && v % PAGE_SIZE == 0 && ChainComplete(m, vs, v) && Loc(vs, v) !in m.entries
    ensures FrameMap(m, c, vs, v) == (Enter(m, c, vs, v), Ok)
  {
  }

  lemma FreeEntry(m: Machine, t: Task, v: nat)
    requires TaskOk(m, t) && v !in t.mappedPage
    ensures Loc(t.vspace, v) !in m.entries
  {
  }

  /** With the tables in place the kernel maps the first waiting frame. */
  lemma WaitingMaps(m: Machine, t: Task, v: nat, p: Page, rest: seq<Page>)
    requires MachineOk(m) && TaskOk(m, t) && v % PAGE_SIZE == 0 && v !in t.mappedPage
    requires ChainComplete(m, t.vspace, v)
    ensures m.next in AddFrames(m, [p] + rest).caps
    ensures FrameMap(AddFrames(m, [p] + rest), m.next, t.vspace, v) ==
            (Enter(AddFrames(m, [p] + rest), m.next, t.vspace, v), Ok)
  {
    hide MachineOk, TaskOk, AddFrames, ChainComplete, FrameMap, Enter;
    FreeEntry(m, t, v);
    AddFramesOk(m, [p] + rest);
    CompleteMonotone(m, AddFrames(m, [p] + rest), t.vspace, v);
    AddFramesLoose(m, [p] + rest, 0);
    assert m.next + 0 == m.next;
    FrameMapSucceeds(AddFrames(m, [p] + rest), m.next, t.vspace, v);
  }

  /** Mapping the first of the waiting frames is one new page; the others still wait. */
  lemma MapWaiting(m: Machine, t: Task, v: nat, p: Page, rest: seq<Page>)
    requires MachineOk(m) && TaskOk(m, t) && v % PAGE_SIZE == 0 && v !in t.mappedPage
    requires ChainComplete(m, t.vspace, v)
    ensures var (m1, t1) := Apply(m, t, Fresh(v, p));
            && t1 == t.(mappedPage := t.mappedPage[v := m.next])
            && m1.next == m.next + 1
            && FrameMap(AddFrames(m, [p] + rest), m.next, t.vspace, v) == (AddFrames(m1, rest), Ok)
  {
    hide MachineOk, TaskOk, Apply, ChainComplete, AddFrames, FrameMap;
    AddFramesCons(m, p, rest);
    WaitingMaps(m, t, v, p, rest);
    EnterCommutes(AddFrame(m, p), rest, m.next, t.vspace, v);
    ApplyComplete(m, t, v, p);
  }

  lemma AddFramesCons(m: Machine, p: Page, rest: seq<Page>)
    ensures AddFrames(m, [p] + rest) == AddFrames(AddFrame(m, p), rest)
  {
    assert ([p] + rest)[1..] == rest;
  }

  /** With all tables in place a new page takes one slot and nothing else. */
  lemma ApplyComplete(m: Machine, t: Task, v: nat, p: Page)
    requires MachineOk(m) && TaskOk(m, t) && v % PAGE_SIZE == 0 && v !in t.mappedPage
    requires ChainComplete(m, t.vspace, v)
    ensures Apply(m, t, Fresh(v, p)) ==
            (Enter(AddFrame(m, p), m.next, t.vspace, v), t.(mappedPage := t.mappedPage[v := m.next]))
  {
    var m1 := AddFrame(m, p);
    CompleteMonotone(m, m1, t.vspace, v);
    assert Install(m1, t.vspace, v) == m1;
    assert Mappable(m1, t, v, m.next);
    assert t.mappedPt + Slots(m1.next, m1.next) == t.mappedPt;
  }

  // ------------------------------------------------------------------ the new pages as effects

  function ImageEffects(lo: nat, ps: seq<Page>): seq<Effect> {
    seq(|ps|, i requires 0 <= i < |ps| => Fresh(lo + i * PAGE_SIZE, ps[i]))
  }

  lemma AsPagesSnoc(ps: seq<Page>, lo: nat, p: Page)
    requires lo % PAGE_SIZE == 0
    ensures lo + |ps| * PAGE_SIZE !in AsPages(ps, lo)
    ensures AsPages(ps + [p], lo) == AsPages(ps, lo)[lo + |ps| * PAGE_SIZE := p]
  {
    var a, b := AsPages(ps + [p], lo), AsPages(ps, lo)[lo + |ps| * PAGE_SIZE := p];
    forall v: nat ensures v in a <==> v in b { AsPagesSnocAt(ps, lo, p, v); }
    forall v | v in a ensures a[v] == b[v] { AsPagesSnocAt(ps, lo, p, v); }
    assert lo + |ps| * PAGE_SIZE !in AsPages(ps, lo);
    hide AsPages;
    assert a.Keys == b.Keys;
  }

  /** The number of an aligned address, and on which side of the n-th page it lies. */
  lemma WhichPage(lo: nat, v: nat, n: nat)
    requires lo % PAGE_SIZE == 0 && v % PAGE_SIZE == 0 && lo <= v
    ensures v == lo + (v - lo) / PAGE_SIZE * PAGE_SIZE
    ensures v < lo + n * PAGE_SIZE <==> (v - lo) / PAGE_SIZE < n
  {
  }

  lemma AsPagesSnocAt(ps: seq<Page>, lo: nat, p: Page, v: nat)
    requires lo % PAGE_SIZE == 0
    ensures var a, b := AsPages(ps + [p], lo), AsPages(ps, lo)[lo + |ps| * PAGE_SIZE := p];
            (v in a <==> v in b) && (v in a ==> a[v] == b[v])
  {
    if lo <= v && v % PAGE_SIZE == 0 {
      WhichPage(lo, v, |ps|);
      WhichPage(lo, v, |ps| + 1);
    }
  }

  lemma OverlaySnoc(base: Pages, more: Pages, v: nat, p: Page)
    ensures base + more[v := p] == (base + more)[v := p]
  {
  }

  lemma ImageEffectsSnoc(lo: nat, ps: seq<Page>, p: Page)
    ensures ImageEffects(lo, ps + [p]) == ImageEffects(lo, ps) + [Fresh(lo + |ps| * PAGE_SIZE, p)]
  {
  }

  /** The first `n` pages from `lo` on are not in `base`. */
  ghost predicate PagesFree(base: Pages, lo: nat, n: nat) {
    forall i :: 0 <= i < n ==> lo + i * PAGE_SIZE !in base
  }

  lemma PagesFreeBut(base: Pages, lo: nat, n: nat)
    requires PagesFree(base, lo, n) && n > 0
    ensures PagesFree(base, lo, n - 1) && lo + (n - 1) * PAGE_SIZE !in base
  {
  }

  /** One more page, beside those that are there. */
  lemma ImageEffectsTurn(base: Pages, lo: nat, pre: seq<Page>, p: Page)
    requires lo % PAGE_SIZE == 0 && lo + |pre| * PAGE_SIZE !in base
    requires AllEnabledOn(base, ImageEffects(lo, pre))
    requires SimpleAll(base, ImageEffects(lo, pre)) == base + AsPages(pre, lo)
    ensures AllEnabledOn(base, ImageEffects(lo, pre + [p]))
    ensures SimpleAll(base, ImageEffects(lo, pre + [p])) == base + AsPages(pre + [p], lo)
  {
    hide ImageEffects, AsPages, SimpleAll, AllEnabledOn;
    var v := lo + |pre| * PAGE_SIZE;
    ImageEffectsSnoc(lo, pre, p);
    AsPagesSnoc(pre, lo, p);
    OverlaySnoc(base, AsPages(pre, lo), v, p);
    SimpleSnoc(base, ImageEffects(lo, pre), Fresh(v, p));
  }

  lemma NoImage(base: Pages, lo: nat)
    requires lo % PAGE_SIZE == 0
    ensures AllEnabledOn(base, ImageEffects(lo, [])) && SimpleAll(base, ImageEffects(lo, [])) == base + AsPages([], lo)
  {
    assert base + AsPages([], lo) == base;
  }

  lemma {:induction false} ImageEffectsMemory(base: Pages, lo: nat, ps: seq<Page>)
    requires lo % PAGE_SIZE == 0 && PagesFree(base, lo, |ps|)
    ensures AllEnabledOn(base, ImageEffects(lo, ps))
    ensures SimpleAll(base, ImageEffects(lo, ps)) == base + AsPages(ps, lo)
    decreases |ps|
  {
    hide ImageEffects, AsPages, SimpleAll, AllEnabledOn, PagesFree;
    if ps == [] {
      NoImage(base, lo);
    } else {
      var pre, p := ps[..|ps| - 1], ps[|ps| - 1];
      PagesFreeBut(base, lo, |ps|);
      ImageEffectsMemory(base, lo, pre);
      ImageEffectsTurn(base, lo, pre, p);
      assert ps == pre + [p];
    }
  }

  // ------------------------------------------------------------------ map_image

  /** Phase one: a zeroed frame for every page of the footprint. */
  method AllocFrames(k: Kernel, n: nat) returns (pages: seq<nat>)
    modifies k
    ensures pages == Slots(old(k.m.next), old(k.m.next) + n)
    ensures k.m == AddFrames(old(k.m), ZeroFrames(n))
  {
    ghost var m0 := k.m;
    pages := [];
    for i := 0 to n
      invariant pages == Slots(m0.next, m0.next + i)
      invariant k.m == AddFrames(m0, ZeroFrames(i)) && k.m.next == m0.next + i
    {
      ZeroFramesSnoc(i);
      AddFramesSnoc(m0, ZeroFrames(i), ZeroPage());
      SlotsSnoc([], m0.next, m0.next + i);
      assert pages == [] + pages && Slots(m0.next, m0.next + i + 1) == [] + Slots(m0.next, m0.next + i + 1);
      pages := pages + [k.m.next];
      k.m := AllocFrame(k.m);
    }
  }

  lemma ZeroFramesSnoc(n: nat)
    ensures ZeroFrames(n + 1) == ZeroFrames(n) + [ZeroPage()]
  {
  }

  /** Phase two, one segment: the data loop through the window. */
  method CopySegment(k: Kernel, pages: seq<nat>, idx: nat, n: nat, offset: nat, segData: seq<byte>,
                     ghost m0: Machine, ghost ps0: seq<Page>)
    requires MachineOk(m0) && k.m == AddFrames(m0, ps0) && pages == Slots(m0.next, m0.next + |ps0|)
    requires idx + n <= |ps0| && offset < PAGE_SIZE
    modifies k
    ensures k.m == AddFrames(m0, FillData(ps0, idx, n, offset, segData))
  {
    var data, offsetIntoPage: nat := segData, offset;
    ghost var ps: seq<Page> := ps0;
    hide MachineOk, AddFrames, Splice;
    for i := idx to idx + n
      invariant |ps| == |ps0| && k.m == AddFrames(m0, ps) && offsetIntoPage < PAGE_SIZE
      invariant FillData(ps, i, idx + n - i, offsetIntoPage, data) == FillData(ps0, idx, n, offset, segData)
    {
      var dataLen := if PAGE_SIZE - offsetIntoPage < |data| then PAGE_SIZE - offsetIntoPage else |data|;
      AddFramesOk(m0, ps);
      AddFramesLoose(m0, ps, i);
      AddFramesPoke(m0, ps, i, offsetIntoPage, data[..dataLen]);
      FillFrame(k, pages[i], offsetIntoPage, data[..dataLen]);
      ps := ps[i := Splice(ps[i], offsetIntoPage, data[..dataLen])];
      data := data[dataLen..];
      offsetIntoPage := 0;
    }
  }

  method CopyNth(k: Kernel, pages: seq<nat>, fp: Range, elf: seq<byte>, segs: seq<Segment>, i: nat, ghost m0: Machine)
    requires MachineOk(m0) && ImagePre(fp, elf, segs) && i < |segs|
    requires k.m == AddFrames(m0, Frames(fp, elf, segs, i)) && pages == Slots(m0.next, m0.next + NumPages(fp))
    modifies k
    ensures k.m == AddFrames(m0, Frames(fp, elf, segs, i + 1))
  {
    var s := segs[i];
    assert ValidSegment(elf, s);
    SegmentFits(fp, segs, i);
    hide MachineOk, AddFrames, ZeroFrames, FillData, Fits;
    CopySegment(k, pages, PageIndex(fp, s), PagesSpanned(s, s.filesz), s.vaddr % PAGE_SIZE,
                elf[s.offset..s.offset + s.filesz], m0, Frames(fp, elf, segs, i));
  }

  /** Phase two: segment after segment. */
  method CopySegments(k: Kernel, pages: seq<nat>, fp: Range, elf: seq<byte>, segs: seq<Segment>, ghost m0: Machine)
    requires MachineOk(m0) && ImagePre(fp, elf, segs)
    requires k.m == AddFrames(m0, ZeroFrames(NumPages(fp))) && pages == Slots(m0.next, m0.next + NumPages(fp))
    modifies k
    ensures k.m == AddFrames(m0, Frames(fp, elf, segs, |segs|))
  {
    assert Frames(fp, elf, segs, 0) == ZeroFrames(NumPages(fp));
    hide *;
    for i := 0 to |segs|
      invariant k.m == AddFrames(m0, Frames(fp, elf, segs, i))
    {
      CopyNth(k, pages, fp, elf, segs, i, m0);
    }
  }

  // ------------------------------------------------------------------ mapping into the child

  ghost predicate MapPre(m: Machine, t: Task, lo: nat, ps: seq<Page>) {
    && MachineOk(m) && TaskOk(m, t) && lo % PAGE_SIZE == 0
    && forall v :: v in AsPages(ps, lo) ==> v !in t.mappedPage && ChainComplete(m, t.vspace, v)
  }

  /** After the first `i` frames have been mapped. */
  lemma MapImageTurn(m: Machine, t: Task, lo: nat, ps: seq<Page>, i: nat)
    requires MapPre(m, t, lo, ps) && i < |ps|
    ensures var (m1, t1) := ApplyAll(m, t, ImageEffects(lo, ps[..i]));
            var v := lo + i * PAGE_SIZE;
            && MachineOk(m1) && TaskOk(m1, t1) && t1.vspace == t.vspace
            && v % PAGE_SIZE == 0 && v !in t1.mappedPage && ChainComplete(m1, t.vspace, v)
            && ApplyAll(m, t, ImageEffects(lo, ps[..i + 1])) == Apply(m1, t1, Fresh(v, ps[i]))
  {
    hide MapPre, MachineOk, TaskOk, LocalTo, Memory, ChainComplete, Apply, ApplyAll, ImageEffects, AsPages;
    var v := lo + i * PAGE_SIZE;
    MapPreAt(m, t, lo, ps, i);
    MapImagePrefix(m, t, lo, ps, i);
    MapImageSplit(m, t, lo, ps, i);
    var (m1, t1) := ApplyAll(m, t, ImageEffects(lo, ps[..i]));
    LocalKeepsChain(m, m1, t.vspace, v);
    AsPagesSnoc(ps[..i], lo, ps[i]);
  }

  lemma LocalKeepsChain(m: Machine, m': Machine, vs: nat, v: nat)
    requires LocalTo(m, m', vs) && ChainComplete(m, vs, v)
    ensures ChainComplete(m', vs, v)
  {
    CompleteMonotone(m, m', vs, v);
  }

  lemma MapImageSplit(m: Machine, t: Task, lo: nat, ps: seq<Page>, i: nat)
    requires i < |ps|
    ensures ApplyAll(m, t, ImageEffects(lo, ps[..i + 1])) ==
            var (m1, t1) := ApplyAll(m, t, ImageEffects(lo, ps[..i])); Apply(m1, t1, Fresh(lo + i * PAGE_SIZE, ps[i]))
  {
    assert ps[..i + 1] == ps[..i] + [ps[i]];
    ImageEffectsSnoc(lo, ps[..i], ps[i]);
    hide Apply, ApplyAll, ImageEffects;
    ApplySnoc(m, t, ImageEffects(lo, ps[..i]), Fresh(lo + i * PAGE_SIZE, ps[i]));
  }

  lemma MapPreAt(m: Machine, t: Task, lo: nat, ps: seq<Page>, i: nat)
    requires MapPre(m, t, lo, ps) && i < |ps|
    ensures lo % PAGE_SIZE == 0 && (lo + i * PAGE_SIZE) % PAGE_SIZE == 0
    ensures lo + i * PAGE_SIZE !in t.mappedPage && ChainComplete(m, t.vspace, lo + i * PAGE_SIZE)
  {
    AsPagesAt(ps, lo, i);
  }

  lemma MapImagePrefix(m: Machine, t: Task, lo: nat, ps: seq<Page>, i: nat)
    requires MapPre(m, t, lo, ps) && i <= |ps|
    ensures var (m1, t1) := ApplyAll(m, t, ImageEffects(lo, ps[..i]));
            && MachineOk(m1) && TaskOk(m1, t1) && t1.vspace == t.vspace && LocalTo(m, m1, t.vspace)
            && Memory(m1, t1) == Memory(m, t) + AsPages(ps[..i], lo)
            && t1.mappedPage.Keys == t.mappedPage.Keys + AsPages(ps[..i], lo).Keys
  {
    MemoryPages(m, t);
    forall j | 0 <= j < i ensures lo + j * PAGE_SIZE !in Memory(m, t) {
      AsPagesAt(ps, lo, j);
    }
    hide MachineOk, TaskOk, LocalTo, Memory, ApplyAll, ImageEffects, AsPages, ChainComplete;
    ImageEffectsMemory(Memory(m, t), lo, ps[..i]);
    EffectsOk(m, t, ImageEffects(lo, ps[..i]));
    var (m1, t1) := ApplyAll(m, t, ImageEffects(lo, ps[..i]));
    MemoryPages(m1, t1);
  }

  /** The child after the first `i` frames have been mapped. */
  function FirstMapped(m: Machine, t: Task, lo: nat, ps: seq<Page>, i: nat): (Machine, Task)
    requires i <= |ps|
  {
    ApplyAll(m, t, ImageEffects(lo, ps[..i]))
  }

  /** The frames from the `i`-th on, allocated and filled but not yet mapped. */
  function Waiting(m: Machine, ps: seq<Page>, i: nat): Machine
    requires i <= |ps|
  {
    AddFrames(m, ps[i..])
  }

  lemma FirstMappedEnds(m: Machine, t: Task, lo: nat, ps: seq<Page>)
    ensures FirstMapped(m, t, lo, ps, 0) == (m, t) && Waiting(m, ps, 0) == AddFrames(m, ps)
    ensures FirstMapped(m, t, lo, ps, |ps|) == ApplyAll(m, t, ImageEffects(lo, ps))
    ensures forall m1 :: Waiting(m1, ps, |ps|) == m1
  {
    assert ImageEffects(lo, ps[..0]) == [] && ps[0..] == ps && ps[..|ps|] == ps && ps[|ps|..] == [];
  }

  lemma WaitingSplit(m: Machine, ps: seq<Page>, i: nat)
    requires i < |ps|
    ensures Waiting(m, ps, i) == AddFrames(m, [ps[i]] + ps[i + 1..])
  {
    assert ps[i..] == [ps[i]] + ps[i + 1..];
  }

  lemma NextMapped(m: Machine, t: Task, lo: nat, ps: seq<Page>, i: nat)
    requires MapPre(m, t, lo, ps) && i < |ps|
    ensures var (m1, t1), (m2, t2) := FirstMapped(m, t, lo, ps, i), FirstMapped(m, t, lo, ps, i + 1);
            var v := lo + i * PAGE_SIZE;
            && t1.vspace == t.vspace && t2 == t1.(mappedPage := t1.mappedPage[v := m1.next]) && m2.next == m1.next + 1
            && FrameMap(Waiting(m1, ps, i), m1.next, t.vspace, v) == (Waiting(m2, ps, i + 1), Ok)
  {
    hide MapPre, MachineOk, TaskOk, Apply, ApplyAll, AddFrames, FrameMap, ChainComplete, ImageEffects;
    MapImageTurn(m, t, lo, ps, i);
    var (m1, t1) := FirstMapped(m, t, lo, ps, i);
    WaitingSplit(m1, ps, i);
    MapWaiting(m1, t1, lo + i * PAGE_SIZE, ps[i], ps[i + 1..]);
  }

  /** One frame of phase three. */
  method MapNext(k: Kernel, task: Sel4Task, cap: nat, lo: nat, i: nat,
                 ghost m0: Machine, ghost t0: Task, ghost ps: seq<Page>) returns (ghost m2: Machine)
    requires MapPre(m0, t0, lo, ps) && i < |ps| && task.vspace == t0.vspace
    requires var (m1, t1) := FirstMapped(m0, t0, lo, ps, i);
             task.View() == t1 && k.m == Waiting(m1, ps, i) && cap == m1.next
    modifies k, task
    ensures (m2, task.View()) == FirstMapped(m0, t0, lo, ps, i + 1)
    ensures k.m == Waiting(m2, ps, i + 1) && m2.next == cap + 1
  {
    hide MapPre, FirstMapped, Waiting, FrameMap;
    NextMapped(m0, t0, lo, ps, i);
    var v := lo + i * PAGE_SIZE;
    m2 := FirstMapped(m0, t0, lo, ps, i + 1).0;
    var (mapped, res) := FrameMap(k.m, cap, task.vspace, v);
    assert res == Ok;
    k.m := mapped;
    task.mappedPage := task.mappedPage[v := cap];
  }

  /** Phase three: the frames, filled and waiting, are mapped in order and entered in the index. */
  method MapFrames(k: Kernel, task: Sel4Task, pages: seq<nat>, lo: nat, ghost m0: Machine, ghost ps: seq<Page>)
    requires MapPre(m0, task.View(), lo, ps) && k.m == AddFrames(m0, ps)
    requires pages == Slots(m0.next, m0.next + |ps|)
    modifies k, task
    ensures (k.m, task.View()) == ApplyAll(m0, old(task.View()), ImageEffects(lo, ps))
  {
    ghost var t0, m1 := task.View(), m0;
    hide MapPre, FirstMapped, Waiting, ApplyAll, ImageEffects, AddFrames;
    FirstMappedEnds(m0, t0, lo, ps);
    for i := 0 to |pages|
      invariant (m1, task.View()) == FirstMapped(m0, t0, lo, ps, i)
      invariant k.m == Waiting(m1, ps, i) && m1.next == m0.next + i
    {
      m1 := MapNext(k, task, pages[i], lo, i, m0, t0, ps);
    }
  }

  /** The footprint's pages are free in the child and have their translation tables. */
  ghost predicate FootprintReady(m: Machine, t: Task, fp: Range) {
    && MachineOk(m) && TaskOk(m, t)
    && forall v :: fp.start <= v < fp.end && v % PAGE_SIZE == 0 ==> v !in t.mappedPage && ChainComplete(m, t.vspace, v)
  }

  lemma ReadyIsMapPre(m: Machine, t: Task, fp: Range, ps: seq<Page>)
    requires FootprintReady(m, t, fp) && fp.start % PAGE_SIZE == 0 && fp.end % PAGE_SIZE == 0 && fp.start <= fp.end
    requires |ps| == NumPages(fp)
    ensures MapPre(m, t, fp.start, ps)
  {
    IndexFacts(fp.start, fp.end);
    hide MachineOk, TaskOk, ChainComplete;
  }

  method MapImage(k: Kernel, task: Sel4Task, fp: Range, elf: seq<byte>, segs: seq<Segment>)
    requires ImagePre(fp, elf, segs) && FootprintReady(k.m, task.View(), fp)
    modifies k, task
    ensures (k.m, task.View()) ==
            ApplyAll(old(k.m), old(task.View()), ImageEffects(fp.start, Frames(fp, elf, segs, |segs|)))
  {
    ghost var m0 := k.m;
    ReadyIsMapPre(m0, task.View(), fp, Frames(fp, elf, segs, |segs|));
    hide MapPre, MachineOk, TaskOk, ApplyAll, ImageEffects, AddFrames, Frames, ZeroFrames;
    var pages := AllocFrames(k, NumPages(fp));
    CopySegments(k, pages, fp, elf, segs, m0);
    MapFrames(k, task, pages, fp.start, m0, Frames(fp, elf, segs, |segs|));
  }

  /** `map_image` as a whole: the footprint's pages, and no others, are new and hold the image. */
  lemma MapImageBytes(m: Machine, t: Task, fp: Range, elf: seq<byte>, segs: seq<Segment>, x: nat)
    requires ImagePre(fp, elf, segs) && FootprintReady(m, t, fp)
    ensures var (m', t') := ApplyAll(m, t, ImageEffects(fp.start, Frames(fp, elf, segs, |segs|)));
            && MachineOk(m') && TaskOk(m', t') && LocalTo(m, m', t.vspace) && t'.vspace == t.vspace
            && ByteAt(Memory(m', t'), x) ==
               if fp.start <= x < fp.end then Some(ImageByte(elf, segs, |segs|, x)) else ByteAt(Memory(m, t), x)
  {
    var ps := Frames(fp, elf, segs, |segs|);
    ReadyIsMapPre(m, t, fp, ps);
    assert ps[..|ps|] == ps;
    if fp.start <= x < fp.end { FillSegmentsByte(fp, elf, segs, |segs|, x); }
    InFootprint(ps, fp, x);
    hide MapPre, MachineOk, TaskOk, LocalTo, Memory, ApplyAll, ImageEffects, Frames, AsPages, ImagePre, ValidImage;
    MapImagePrefix(m, t, fp.start, ps, |ps|);
  }

  lemma InFootprint(ps: seq<Page>, fp: Range, x: nat)
    requires fp.start % PAGE_SIZE == 0 && fp.end % PAGE_SIZE == 0 && fp.start <= fp.end && |ps| == NumPages(fp)
    ensures PageOf(x) in AsPages(ps, fp.start) <==> fp.start <= x < fp.end
  {
    IndexFacts(fp.start, fp.end);
  }

  /** The index gains exactly the footprint's pages. */
  lemma MapImageIndex(m: Machine, t: Task, fp: Range, elf: seq<byte>, segs: seq<Segment>, v: nat)
    requires ImagePre(fp, elf, segs) && FootprintReady(m, t, fp)
    ensures var (m', t') := ApplyAll(m, t, ImageEffects(fp.start, Frames(fp, elf, segs, |segs|)));
            v in t'.mappedPage <==> v in t.mappedPage || (fp.start <= v < fp.end && v % PAGE_SIZE == 0)
  {
    var ps := Frames(fp, elf, segs, |segs|);
    ReadyIsMapPre(m, t, fp, ps);
    assert ps[..|ps|] == ps;
    IndexFacts(fp.start, fp.end);
    assert v in AsPages(ps, fp.start) <==> fp.start <= v < fp.end && v % PAGE_SIZE == 0;
    hide MapPre, MachineOk, TaskOk, LocalTo, Memory, ApplyAll, ImageEffects, Frames, AsPages, ImagePre, ValidImage;
    MapImagePrefix(m, t, fp.start, ps, |ps|);
  }

  /** What `map_image` does for an image and its own footprint. */
  ghost function MapImageSpec(m: Machine, t: Task, elf: seq<byte>, segs: seq<Segment>): (Machine, Task)
    requires segs != [] && ValidImage(elf, segs)
  {
    FootprintHolds(segs);
    ApplyAll(m, t, ImageEffects(Footprint(segs).start, Frames(Footprint(segs), elf, segs, |segs|)))
  }

  /** The two loaders agree at every address of every segment, whatever pages the segments share. */
  lemma LoadersAgree(ma: Machine, ta: Task, mb: Machine, tb: Task, elf: seq<byte>, segs: seq<Segment>, i: nat, x: nat)
    requires ValidImage(elf, segs) && Congruent(segs) && i < |segs| && InSegment(segs[i], x)
    requires MachineOk(ma) && TaskOk(ma, ta) && Unoccupied(ta.mappedPage.Keys, segs)
    requires FootprintReady(mb, tb, Footprint(segs))
    ensures var (ma', ta') := LoadElfSpec(ma, ta, elf, segs, |segs|);
            var (mb', tb') := MapImageSpec(mb, tb, elf, segs);
            && ByteAt(Memory(ma', ta'), x).Some?
            && ByteAt(Memory(ma', ta'), x) == ByteAt(Memory(mb', tb'), x)
  {
    var fp := Footprint(segs);
    FootprintHolds(segs);
    SegmentInImage(segs, i, x);
    assert fp.start <= x < fp.end;
    hide MachineOk, TaskOk, Memory, LoadElfSpec, ApplyAll, ImageEffects, Frames, InImagePages, FootprintReady,
         Unoccupied,
         ImagePre, ValidImage, Congruent, Footprint;
    LoadElfBytes(ma, ta, elf, segs, x);
    MapImageBytes(mb, tb, fp, elf, segs, x);
  }
}
