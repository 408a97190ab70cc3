/**
 `map_intermediate_translation_tables`: level after level, from the root down, one table for every
 span of the coarsened footprint.
 */
module Tables {
  import opened Base
  import opened Machine
  import opened TaskSpace
  import opened AddressSpace
  import opened Image

  // ------------------------------------------------------------------ multiples

  /** Two different multiples of `b` are at least `b` apart. */
  lemma MultipleGap(x: nat, y: nat, b: nat)
    requires b > 0 && x % b == 0 && y % b == 0 && x < y
    ensures x + b <= y
  {
    var p, q := x / b, y / b;
    assert x == b * p && y == b * q;
    if q <= p {
      MulMonotone(b, q, p);
      assert false;
    }
    assert b * q >= b * (p + 1) by { MulMonotone(b, p + 1, q); }
    assert b * (p + 1) == b * p + b;
  }

  lemma MulMonotone(b: nat, p: nat, q: nat)
    requires p <= q
    ensures b * p <= b * q
  {
    assert b * q == b * p + b * (q - p);
  }

  lemma MultipleTrans(x: nat, a: nat, b: nat)
    requires a > 0 && b > 0 && x % a == 0 && a % b == 0
    ensures x % b == 0
  {
    assert x == a * (x / a) && a == b * (a / b);
    var q := (a / b) * (x / a);
    assert x == q * b by {
      assert (b * (a / b)) * (x / a) == b * ((a / b) * (x / a));
    }
    MultipleMod(q, b);
  }

  /** The largest multiple at or below `v`. */
  lemma RoundDownGreatest(x: nat, v: nat, b: nat)
    requires b > 0 && x % b == 0 && x <= v
    ensures x <= RoundDown(v, b)
  {
    if RoundDown(v, b) < x { MultipleGap(RoundDown(v, b), x, b); }
  }

  /** The smallest multiple at or above `v`. */
  lemma RoundUpLeast(x: nat, v: nat, b: nat)
    requires b > 0 && x % b == 0 && v <= x
    ensures RoundUp(v, b) <= x
  {
    if x < RoundUp(v, b) { MultipleGap(x, RoundUp(v, b), b); }
  }

  lemma RoundDownSame(x: nat, b: nat)
    requires b > 0 && x % b == 0
    ensures RoundDown(x, b) == x
  {
  }

  // ------------------------------------------------------------------ spans

  /** Deeper spans divide all the spans above them. */
  lemma {:induction false} SpansDivide(spans: seq<nat>, l: nat, d: nat)
    requires ValidSpans(spans) && l <= d < |spans|
    ensures spans[l] % spans[d] == 0
    decreases d - l
  {
    if l == d {
      DivModUnique(spans[l], spans[l], 1, 0);
    } else {
      SpansDivide(spans, l + 1, d);
      MultipleTrans(spans[l], spans[l + 1], spans[d]);
    }
  }

  function Coarse(spans: Spans, fp: Range, level: nat): Range
    requires level < |spans|
  {
    CoarsenFootprint(fp, spans[level])
  }

  /** A deeper level's coarsened footprint lies within that of every level above. */
  lemma CoarseNested(spans: Spans, fp: Range, l: nat, d: nat)
    requires ValidSpans(spans) && l <= d < |spans|
    ensures Coarse(spans, fp, l).start <= Coarse(spans, fp, d).start
    ensures Coarse(spans, fp, d).end <= Coarse(spans, fp, l).end
  {
    SpansDivide(spans, l, d);
    MultipleTrans(Coarse(spans, fp, l).start, spans[l], spans[d]);
    RoundDownGreatest(Coarse(spans, fp, l).start, fp.start, spans[d]);
    MultipleTrans(Coarse(spans, fp, l).end, spans[l], spans[d]);
    RoundUpLeast(Coarse(spans, fp, l).end, fp.end, spans[d]);
  }

  /** The table of `level` that `map_intermediate_translation_tables` provides for. */
  predicate Wanted(spans: Spans, vs: nat, fp: Range, t: Table) {
    && t.vspace == vs && 1 <= t.level < |spans|
    && t.base % spans[t.level] == 0
    && Coarse(spans, fp, t.level).start <= t.base < Coarse(spans, fp, t.level).end
  }

  /** Wanted are the aligned spans, on every level below the root, that share a byte with the footprint. */
  lemma WantedIff(spans: Spans, vs: nat, fp: Range, t: Table)
    requires fp.start <= fp.end
    ensures Wanted(spans, vs, fp, t) <==>
            && t.vspace == vs && 1 <= t.level < |spans| && t.base % spans[t.level] == 0
            && t.base < fp.end && fp.start < t.base + spans[t.level]
  {
    if 1 <= t.level < |spans| && t.base % spans[t.level] == 0 {
      var b := spans[t.level];
      var lo, hi := RoundDown(fp.start, b), RoundUp(fp.end, b);
      if t.base < lo { MultipleGap(t.base, lo, b); }
      if lo <= t.base && t.base < hi && fp.end <= t.base { RoundUpLeast(t.base, fp.end, b); }
    }
  }

  /** The tables above a wanted one are wanted. */
  lemma ParentWanted(spans: Spans, vs: nat, fp: Range, t: Table, l: nat)
    requires ValidSpans(spans) && Wanted(spans, vs, fp, t) && 1 <= l < t.level
    ensures Wanted(spans, vs, fp, Table(vs, l, RoundDown(t.base, spans[l])))
  {
    CoarseNested(spans, fp, l, t.level);
    var c := Coarse(spans, fp, l);
    RoundDownGreatest(c.start, t.base, spans[l]);
  }

  /** Every address of the footprint has its table of every level among the wanted ones. */
  lemma CoveredWanted(spans: Spans, vs: nat, fp: Range, v: nat, l: nat)
    requires 1 <= l < |spans| && fp.start <= v < fp.end
    ensures Wanted(spans, vs, fp, Table(vs, l, RoundDown(v, spans[l])))
  {
    RoundDownGreatest(Coarse(spans, fp, l).start, v, spans[l]);
  }

  // ------------------------------------------------------------------ the walk

  /** If the levels above `level` are there and `level` is not, the kernel installs at `level`. */
  lemma {:induction false} FirstMissing(m: Machine, vs: nat, v: nat, from: nat, level: nat)
    requires 1 <= from <= level < |m.spans| && !HasTable(m, vs, v, level)
    requires forall l :: from <= l < level ==> HasTable(m, vs, v, l)
    ensures MissingFrom(m, vs, v, from) != [] && MissingFrom(m, vs, v, from)[0] == level
    decreases level - from
  {
    if from < level {
      FirstMissing(m, vs, v, from + 1, level);
    }
  }

  lemma {:induction false} NoneMissing(m: Machine, vs: nat, v: nat, from: nat)
    requires 1 <= from <= |m.spans| && forall l :: from <= l < |m.spans| ==> HasTable(m, vs, v, l)
    ensures MissingFrom(m, vs, v, from) == []
    decreases |m.spans| - from
  {
    if from < |m.spans| {
      NoneMissing(m, vs, v, from + 1);
    }
  }

  /** Tables mapped so far: all levels above `level`, and at `level` those below `upto`. */
  ghost predicate SoFar(spans: Spans, vs: nat, fp: Range, level: nat, upto: nat, t: Table) {
    Wanted(spans, vs, fp, t) && (t.level < level || (t.level == level && t.base < upto))
  }

  ghost predicate Built(m: Machine, m0: Machine, vs: nat, fp: Range, level: nat, upto: nat) {
    && SameMemory(m0, m) && m0.next <= m.next && TablesKept(m0, m)
    && (forall s :: s in m.ptCaps ==> 0 < s < m.next)
    && (forall t :: t in m.tables <==> t in m0.tables || SoFar(m0.spans, vs, fp, level, upto, t))
  }

  ghost predicate EmptyVspace(m: Machine, vs: nat) {
    && ValidSpans(m.spans) && m.next > 0
    && (forall s :: s in m.ptCaps ==> 0 < s < m.next)
    && (forall t :: t in m.tables ==> t.vspace != vs)
  }

  /** One table: its parents are there, it is not, so the kernel puts it exactly at its level. */
  lemma TableTurn(m: Machine, m0: Machine, vs: nat, fp: Range, level: nat, addr: nat)
    requires EmptyVspace(m0, vs) && 1 <= level < |m0.spans| && Built(m, m0, vs, fp, level, addr)
    requires Wanted(m0.spans, vs, fp, Table(vs, level, addr))
    ensures var t := Table(vs, level, addr);
            && t !in m.tables
            && (forall l :: 1 <= l < level ==> Table(vs, l, RoundDown(addr, m0.spans[l])) in m.tables)
            && PtMap(AllocPt(m), m.next, vs, addr) ==
               (m.(tables := m.tables + {t}, ptCaps := m.ptCaps[m.next := Some(t)], next := m.next + 1), Ok)
  {
    var t := Table(vs, level, addr);
    assert !SoFar(m0.spans, vs, fp, level, addr, t);
    forall l | 1 <= l < level ensures Table(vs, l, RoundDown(addr, m0.spans[l])) in m.tables {
      ParentWanted(m0.spans, vs, fp, t, l);
      assert SoFar(m0.spans, vs, fp, level, addr, Table(vs, l, RoundDown(addr, m0.spans[l])));
    }
    RoundDownSame(addr, m0.spans[level]);
    assert TableAt(m, vs, addr, level) == t;
    forall l | 1 <= l < level ensures HasTable(AllocPt(m), vs, addr, l) {
      assert Table(vs, l, RoundDown(addr, m0.spans[l])) in m.tables;
    }
    hide Built, EmptyVspace, Wanted;
    FirstMissing(AllocPt(m), vs, addr, 1, level);
    assert m.ptCaps[m.next := None][m.next := Some(t)] == m.ptCaps[m.next := Some(t)];
  }

  lemma BuiltGrows(m: Machine, m0: Machine, vs: nat, fp: Range, level: nat, addr: nat)
    requires EmptyVspace(m0, vs) && 1 <= level < |m0.spans| && Built(m, m0, vs, fp, level, addr)
    requires Wanted(m0.spans, vs, fp, Table(vs, level, addr))
    ensures var t := Table(vs, level, addr);
            Built(m.(tables := m.tables + {t}, ptCaps := m.ptCaps[m.next := Some(t)], next := m.next + 1),
                  m0, vs, fp, level, addr + m0.spans[level])
  {
    var t := Table(vs, level, addr);
    var m' := m.(tables := m.tables + {t}, ptCaps := m.ptCaps[m.next := Some(t)], next := m.next + 1);
    var b := m0.spans[level];
    forall u: Table
      ensures SoFar(m0.spans, vs, fp, level, addr + b, u) <==> SoFar(m0.spans, vs, fp, level, addr, u) || u == t
    {
      if Wanted(m0.spans, vs, fp, u) && u.level == level && addr < u.base { MultipleGap(addr, u.base, b); }
    }
    hide Wanted;
  }

  // ------------------------------------------------------------------ tiling

  lemma AddMultiple(x: nat, q: nat, b: nat)
    requires b > 0 && x % b == 0
    ensures (x + q * b) % b == 0
    decreases q
  {
    if q > 0 {
      AddMultiple(x, q - 1, b);
      assert x + q * b == (x + (q - 1) * b) + b;
      AddModulus(x + (q - 1) * b, b);
    }
  }

  /** The spans tile the coarsened footprint exactly. */
  lemma Tiles(c: Range, b: nat, i: nat)
    requires b > 0 && c.start % b == 0 && c.end % b == 0 && c.start <= c.end
    ensures var n := (c.end - c.start) / b;
            && c.start + n * b == c.end
            && (i < n ==> (c.start + i * b) % b == 0 && c.start + i * b + b <= c.end)
  {
    var n := (c.end - c.start) / b;
    DifferenceMultiple(c.start, c.end, b);
    assert c.end - c.start == b * n;
    assert b * n == n * b;
    if i < n {
      AddMultiple(c.start, i, b);
      assert i * b + b == (i + 1) * b;
      MulMonotone(b, i + 1, n);
      assert (i + 1) * b == b * (i + 1);
    }
  }

  lemma DifferenceMultiple(x: nat, y: nat, b: nat)
    requires b > 0 && x % b == 0 && y % b == 0 && x <= y
    ensures (y - x) % b == 0
    decreases y - x
  {
    if x < y {
      MultipleGap(x, y, b);
      AddModulus(x, b);
      DifferenceMultiple(x + b, y, b);
      AddModulus(y - x - b, b);
    } else {
      DivModUnique(0, b, 0, 0);
    }
  }

  /** Nothing at a level yet is the same as the level above being complete. */
  lemma LevelStarts(m: Machine, m0: Machine, vs: nat, fp: Range, level: nat)
    requires 1 <= level < |m0.spans| && Built(m, m0, vs, fp, level, 0)
    ensures Built(m, m0, vs, fp, level, Coarse(m0.spans, fp, level).start)
  {
    forall t: Table ensures SoFar(m0.spans, vs, fp, level, 0, t) <==>
                            SoFar(m0.spans, vs, fp, level, Coarse(m0.spans, fp, level).start, t) {}
    hide Wanted;
  }

  lemma LevelEnds(m: Machine, m0: Machine, vs: nat, fp: Range, level: nat)
    requires 1 <= level < |m0.spans| && Built(m, m0, vs, fp, level, Coarse(m0.spans, fp, level).end)
    ensures Built(m, m0, vs, fp, level + 1, 0)
  {
    forall t: Table ensures SoFar(m0.spans, vs, fp, level, Coarse(m0.spans, fp, level).end, t) <==>
                            SoFar(m0.spans, vs, fp, level + 1, 0, t) {}
    hide Wanted;
  }

  // ------------------------------------------------------------------ the record of what was mapped

  /** The tables in the order in which they were mapped: no repetition, and every parent before its child. */
  ghost predicate ParentsFirst(spans: Spans, vs: nat, log: seq<Table>) {
    && (forall i, j :: 0 <= i < j < |log| ==> log[i] != log[j])
    && (forall j, l :: 0 <= j < |log| && 1 <= l < log[j].level < |spans| ==>
          Table(vs, l, RoundDown(log[j].base, spans[l])) in log[..j])
  }

  /** The record holds exactly the tables of the new vspace. */
  ghost predicate LogOf(m: Machine, m0: Machine, vs: nat, log: seq<Table>) {
    && (forall t :: t in m.tables <==> t in m0.tables || t in log)
    && (forall t :: t in log ==> t.vspace == vs)
  }

  lemma LogGrows(m: Machine, m0: Machine, vs: nat, log: seq<Table>, t: Table)
    requires EmptyVspace(m0, vs) && m.spans == m0.spans && LogOf(m, m0, vs, log) && ParentsFirst(m0.spans, vs, log)
    requires t !in m.tables && t.vspace == vs && t.level < |m0.spans|
    requires forall l :: 1 <= l < t.level ==> Table(vs, l, RoundDown(t.base, m0.spans[l])) in m.tables
    ensures ParentsFirst(m0.spans, vs, log + [t])
    ensures forall m': Machine :: m'.tables == m.tables + {t} ==> LogOf(m', m0, vs, log + [t])
  {
    var log' := log + [t];
    forall j, l | 0 <= j < |log'| && 1 <= l < log'[j].level < |m0.spans|
      ensures Table(vs, l, RoundDown(log'[j].base, m0.spans[l])) in log'[..j]
    {
      if j < |log| {
        assert log'[..j] == log[..j];
      } else {
        assert log'[..j] == log;
        assert Table(vs, l, RoundDown(t.base, m0.spans[l])) !in m0.tables;
      }
    }
  }

  method MapTable(k: Kernel, vs: nat, fp: Range, level: nat, addr: nat, log: seq<Table>, ghost m0: Machine)
    returns (log': seq<Table>)
    requires EmptyVspace(m0, vs) && 1 <= level < |m0.spans| && Built(k.m, m0, vs, fp, level, addr)
    requires Wanted(m0.spans, vs, fp, Table(vs, level, addr))
    requires LogOf(k.m, m0, vs, log) && ParentsFirst(m0.spans, vs, log)
    modifies k
    ensures Built(k.m, m0, vs, fp, level, addr + m0.spans[level])
    ensures LogOf(k.m, m0, vs, log') && ParentsFirst(m0.spans, vs, log')
  {
    ghost var m := k.m;
    assert m.spans == m0.spans;
    TableTurn(m, m0, vs, fp, level, addr);
    BuiltGrows(m, m0, vs, fp, level, addr);
    hide Built, EmptyVspace, Wanted, ParentsFirst, LogOf, Missing;
    LogGrows(m, m0, vs, log, Table(vs, level, addr));
    var pt := k.m.next;
    k.m := AllocPt(k.m);
    var (m1, mapped) := PtMap(k.m, pt, vs, addr);
    assert mapped == Ok;
    k.m := m1;
    log' := log + [Table(vs, level, addr)];
  }

  /** The spans of one level, one after another. */
  method MapLevel(k: Kernel, vs: nat, fp: Range, level: nat, log: seq<Table>, ghost m0: Machine)
    returns (log': seq<Table>)
    requires EmptyVspace(m0, vs) && 1 <= level < |m0.spans| && fp.start <= fp.end && k.m.spans == m0.spans
    requires Built(k.m, m0, vs, fp, level, 0) && LogOf(k.m, m0, vs, log) && ParentsFirst(m0.spans, vs, log)
    modifies k
    ensures Built(k.m, m0, vs, fp, level + 1, 0) && k.m.spans == m0.spans
    ensures LogOf(k.m, m0, vs, log') && ParentsFirst(m0.spans, vs, log')
  {
    var span := k.m.spans[level];
    var c := CoarsenFootprint(fp, span);
    LevelStarts(k.m, m0, vs, fp, level);
    log' := log;
    Tiles(c, span, 0);
    for i := 0 to (c.end - c.start) / span
      invariant Built(k.m, m0, vs, fp, level, c.start + i * span)
      invariant LogOf(k.m, m0, vs, log') && ParentsFirst(m0.spans, vs, log')
    {
      Tiles(c, span, i);
      assert c.start + (i + 1) * span == c.start + i * span + span;
      assert Wanted(m0.spans, vs, fp, Table(vs, level, c.start + i * span)) by { MulMonotone(span, 0, i); }
      log' := MapTable(k, vs, fp, level, c.start + i * span, log', m0);
    }
    LevelEnds(k.m, m0, vs, fp, level);
  }

  method MapIntermediateTables(k: Kernel, vs: nat, fp: Range) returns (log: seq<Table>)
    requires EmptyVspace(k.m, vs) && fp.start <= fp.end
    modifies k
    ensures SameMemory(old(k.m), k.m) && old(k.m.next) <= k.m.next && TablesKept(old(k.m), k.m)
    ensures forall s :: s in k.m.ptCaps ==> 0 < s < k.m.next
    ensures forall t :: t in k.m.tables <==> t in old(k.m.tables) || Wanted(k.m.spans, vs, fp, t)
    ensures forall t :: t in log <==>
            && t.vspace == vs && 1 <= t.level < |k.m.spans| && t.base % k.m.spans[t.level] == 0
            && t.base < fp.end && fp.start < t.base + k.m.spans[t.level]
    ensures forall t :: t in log <==> Wanted(k.m.spans, vs, fp, t)
    ensures ParentsFirst(k.m.spans, vs, log)
  {
    ghost var m0 := k.m;
    log := [];
    assert Built(k.m, m0, vs, fp, 1, 0);
    for level := 1 to |k.m.spans|
      invariant Built(k.m, m0, vs, fp, level, 0) && k.m.spans == m0.spans
      invariant LogOf(k.m, m0, vs, log) && ParentsFirst(m0.spans, vs, log)
    {
      log := MapLevel(k, vs, fp, level, log, m0);
    }
    forall t: Table ensures SoFar(m0.spans, vs, fp, |m0.spans|, 0, t) <==> Wanted(m0.spans, vs, fp, t) {}
    forall t: Table { WantedIff(m0.spans, vs, fp, t); }
  }

  // ------------------------------------------------------------------ afterwards

  /** Every address of the footprint has a complete chain of tables. */
  lemma TablesComplete(m: Machine, vs: nat, fp: Range, v: nat)
    requires (forall t :: Wanted(m.spans, vs, fp, t) ==> t in m.tables) && fp.start <= v < fp.end
    ensures ChainComplete(m, vs, v)
  {
    forall l | 1 <= l < |m.spans| ensures HasTable(m, vs, v, l) {
      CoveredWanted(m.spans, vs, fp, v, l);
    }
    NoneMissing(m, vs, v, 1);
  }

  lemma MoreTablesOk(m: Machine, m': Machine, t: Task)
    requires MachineOk(m) && TaskOk(m, t) && SameMemory(m, m') && m.next <= m'.next && m.tables <= m'.tables
    requires TablesKept(m, m') && forall s :: s in m'.ptCaps ==> 0 < s < m'.next
    ensures MachineOk(m') && TaskOk(m', t)
  {
    OwnedKept(m, m', t);
    hide TablesOwned, OwnTable;
    CompleteMonotone(m, m', INIT_VSPACE, m.seat);
    CompleteMonotone(m, m', INIT_VSPACE, m.ext);
    forall v | v in t.mappedPage ensures PageOk(m', t, v) {
      assert PageOk(m, t, v);
      CompleteMonotone(m, m', t.vspace, v);
    }
  }
}
