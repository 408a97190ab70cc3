/**
 The ephemeral-port scan: cyclic over the port range from a saved cursor, asking the listen table
 whether each port is free.  The table is shorter than the range.
 */
module Ports {
  const PORT_START: nat := 0x1000
  const PORT_END: nat := 0xffff
  const RANGE: nat := PORT_END - PORT_START + 1
  const PORT_NUM: nat := 0x2000

  /** A port, no port left, or an index outside the listen table, which stops the program. */
  datatype Outcome = Found(port: nat) | AddrInUse | OutOfTable(port: nat)

  predicate InRange(p: nat) {
    PORT_START <= p <= PORT_END
  }

  function After(p: nat): nat {
    if p == PORT_END then PORT_START else p + 1
  }

  /** The port reached after `i` steps from `cur`. */
  function Cyclic(cur: nat, i: nat): (p: nat)
    requires InRange(cur)
    ensures InRange(p)
    decreases i
  {
    if i == 0 then cur else After(Cyclic(cur, i - 1))
  }

  /** The scan with `tries` ports already looked at; `busy[p]` says that port p has a listener. */
  function Scan(busy: seq<bool>, cur: nat, tries: nat): (Outcome, nat)
    requires tries <= RANGE
    decreases RANGE - tries
  {
    if tries == RANGE then (AddrInUse, cur)
    else if cur >= |busy| then (OutOfTable(cur), After(cur))
    else if !busy[cur] then (Found(cur), After(cur))
    else Scan(busy, After(cur), tries + 1)
  }

  class EphemeralPorts {
    var curr: nat

    constructor ()
      ensures curr == PORT_START
    {
      curr := PORT_START;
    }

    method Get(busy: seq<bool>) returns (r: Outcome)
      modifies this
      ensures (r, curr) == Scan(busy, old(curr), 0)
    {
      var tries := 0;
      while tries <= PORT_END - PORT_START
        invariant 0 <= tries <= RANGE
        invariant Scan(busy, curr, tries) == Scan(busy, old(curr), 0)
      {
        var port := curr;
        if curr == PORT_END {
          curr := PORT_START;
        } else {
          curr := curr + 1;
        }
        if port >= |busy| {
          return OutOfTable(port);
        }
        if !busy[port] {
          return Found(port);
        }
        tries := tries + 1;
      }
      r := AddrInUse;
    }
  }

  // ------------------------------------------------------------------ what the scan finds

  /** A port that is found lies in the table and is free; the cursor stays in the range. */
  lemma {:induction false} ScanFound(busy: seq<bool>, cur: nat, tries: nat)
    requires tries <= RANGE
    ensures var (r, cur') := Scan(busy, cur, tries);
            && (r.Found? ==> r.port < |busy| && !busy[r.port])
            && (InRange(cur) ==> InRange(cur') && (r.Found? ==> InRange(r.port)))
    decreases RANGE - tries
  {
    if tries < RANGE && cur < |busy| && busy[cur] {
      ScanFound(busy, After(cur), tries + 1);
    }
  }

  /** The scan stops at the first port, in cyclic order, that is free or outside the table. */
  predicate Stops(busy: seq<bool>, p: nat) {
    p >= |busy| || !busy[p]
  }

  lemma {:induction false} ScanFirst(busy: seq<bool>, cur: nat, tries: nat, k: nat)
    requires InRange(cur) && tries + k < RANGE && Stops(busy, Cyclic(cur, k))
    requires forall i :: 0 <= i < k ==> !Stops(busy, Cyclic(cur, i))
    ensures var p := Cyclic(cur, k);
            Scan(busy, cur, tries) == (if p < |busy| then Found(p) else OutOfTable(p), After(p))
    decreases k
  {
    if k > 0 {
      assert !Stops(busy, Cyclic(cur, 0));
      forall i | 0 <= i <= k - 1 ensures Cyclic(After(cur), i) == Cyclic(cur, i + 1) { CyclicShift(cur, i); }
      ScanFirst(busy, After(cur), tries + 1, k - 1);
    }
  }

  lemma {:induction false} CyclicShift(cur: nat, i: nat)
    requires InRange(cur)
    ensures Cyclic(After(cur), i) == Cyclic(cur, i + 1)
    decreases i
  {
    if i > 0 { CyclicShift(cur, i - 1); }
  }

  lemma {:induction false} ScanNone(busy: seq<bool>, cur: nat, tries: nat)
    requires InRange(cur) && tries <= RANGE
    requires forall i :: 0 <= i < RANGE - tries ==> !Stops(busy, Cyclic(cur, i))
    ensures Scan(busy, cur, tries) == (AddrInUse, Cyclic(cur, RANGE - tries))
    decreases RANGE - tries
  {
    if tries < RANGE {
      assert !Stops(busy, Cyclic(cur, 0));
      forall i | 0 <= i < RANGE - tries ensures Cyclic(After(cur), i) == Cyclic(cur, i + 1) { CyclicShift(cur, i); }
      ScanNone(busy, After(cur), tries + 1);
    }
  }

  /** Steps without wrapping, and after the wrap. */
  lemma {:induction false} CyclicIs(cur: nat, i: nat)
    requires InRange(cur) && i <= RANGE
    ensures Cyclic(cur, i) == if cur + i <= PORT_END then cur + i else cur + i - RANGE
    decreases i
  {
    if i > 0 { CyclicIs(cur, i - 1); }
  }

  /** Every port of the range is reached, each at its own number of steps. */
  lemma Reached(cur: nat, p: nat)
    requires InRange(cur) && InRange(p)
    ensures var i := if p >= cur then p - cur else p + RANGE - cur; i < RANGE && Cyclic(cur, i) == p
  {
    CyclicIs(cur, if p >= cur then p - cur else p + RANGE - cur);
  }

  // ------------------------------------------------------------------ tables that cover the range

  lemma {:induction false} FirstStop(busy: seq<bool>, cur: nat, n: nat) returns (k: nat)
    requires InRange(cur)
    ensures k <= n && forall i :: 0 <= i < k ==> !Stops(busy, Cyclic(cur, i))
    ensures k < n ==> Stops(busy, Cyclic(cur, k))
    decreases n
  {
    if n == 0 {
      k := 0;
    } else {
      k := FirstStop(busy, cur, n - 1);
      if k == n - 1 && !Stops(busy, Cyclic(cur, k)) { k := n; }
    }
  }

  /** Port `p` is free, `k` steps from the cursor, and every port before it is busy. */
  ghost predicate IsFirstFree(busy: seq<bool>, cur: nat, p: nat, k: nat)
    requires InRange(cur) && |busy| > PORT_END
  {
    && k < RANGE && Cyclic(cur, k) == p && InRange(p) && !busy[p]
    && forall i :: 0 <= i < k ==> busy[Cyclic(cur, i)]
  }

  ghost predicate AllBusy(busy: seq<bool>)
    requires |busy| > PORT_END
  {
    forall p: nat :: InRange(p) ==> busy[p]
  }

  /** With a table that covers the range: the cyclically first free port, and failure exactly when none is free. */
  lemma ScanCorrect(busy: seq<bool>, cur: nat)
    requires InRange(cur) && |busy| > PORT_END
    ensures var (r, cur') := Scan(busy, cur, 0);
            && !r.OutOfTable?
            && (r.Found? ==> (exists k :: IsFirstFree(busy, cur, r.port, k)) && cur' == After(r.port))
            && (r.AddrInUse? ==> cur' == cur && AllBusy(busy))
            && (r.AddrInUse? <==> AllBusy(busy))
  {
    var k := FirstStop(busy, cur, RANGE);
    if k < RANGE {
      ScanFirst(busy, cur, 0, k);
      assert IsFirstFree(busy, cur, Cyclic(cur, k), k);
    } else {
      ScanNone(busy, cur, 0);
      CyclicIs(cur, RANGE);
      forall p: nat | InRange(p) ensures busy[p] {
        Reached(cur, p);
        assert !Stops(busy, p);
      }
    }
  }

  // ------------------------------------------------------------------ the table the code has

  /** With the code's table the scan yields a port if and only if one is free between the cursor and the table's end. */
  lemma ScanInShortTable(busy: seq<bool>, cur: nat)
    requires InRange(cur) && |busy| == PORT_NUM
    ensures var (r, _) := Scan(busy, cur, 0);
            && (r.Found? <==> exists p :: cur <= p < PORT_NUM && !busy[p])
            && !r.AddrInUse?
            && (r.Found? ==> cur <= r.port < PORT_NUM && !busy[r.port] && forall p :: cur <= p < r.port ==> busy[p])
  {
    var last := if cur < PORT_NUM then PORT_NUM - cur else 0;
    CyclicIs(cur, last);
    assert Stops(busy, Cyclic(cur, last));
    var k := FirstStop(busy, cur, last + 1);
    CyclicIs(cur, k);
    ScanFirst(busy, cur, 0, k);
    forall p | cur <= p < cur + k ensures p < PORT_NUM && busy[p] {
      CyclicIs(cur, p - cur);
      assert !Stops(busy, Cyclic(cur, p - cur));
    }
  }

  /** Handing out the last port of the table leaves the cursor outside it: the next scan cannot succeed. */
  lemma LastPortStrandsCursor(busy: seq<bool>, busy': seq<bool>, cur: nat)
    requires InRange(cur) && |busy| == PORT_NUM && |busy'| == PORT_NUM
    requires Scan(busy, cur, 0).0 == Found(PORT_NUM - 1)
    ensures Scan(busy', Scan(busy, cur, 0).1, 0).0 == OutOfTable(PORT_NUM)
  {
    var k := FirstStop(busy, cur, RANGE);
    if k < RANGE {
      ScanFirst(busy, cur, 0, k);
    } else {
      ScanNone(busy, cur, 0);
      assert false;
    }
  }
}
