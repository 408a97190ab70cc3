/**
 The two-level slot allocator: a range of raw slot numbers, a new capability node whenever a checked
 allocation reaches the first slot of one, and objects retyped into the slots.
 */
module Allocator {
  import opened Base

  const NODE_SLOTS: nat := 4096

  /** `cnodes` are the occupied slots of the root node, `full` the occupied slots below it. */
  datatype State = State(next: nat, end: nat, cnodes: set<nat>, full: set<nat>)

  /** `allocate_slot`, `allocate_and_retype`, or one of the two allocators that do not look at the node. */
  datatype Op = Slot | Object | Unchecked

  /** Taking a number; the first slot of a node brings the node, whose retype needs an empty root slot. */
  function Take(s: State, op: Op): Option<State> {
    var node := s.next / NODE_SLOTS;
    if s.next >= s.end then None
    else if op.Unchecked? || s.next % NODE_SLOTS != 0 then Some(s.(next := s.next + 1))
    else if node in s.cnodes then None
    else Some(s.(next := s.next + 1, cnodes := s.cnodes + {node}))
  }

  /** One operation; None where an `unwrap` or `expect` of the code stops the program. */
  function Step(s: State, op: Op): Option<State> {
    var s1 := Take(s, op);
    if s1.None? || !op.Object? then s1
    else if s.next / NODE_SLOTS !in s1.value.cnodes || s.next in s1.value.full then None
    else Some(s1.value.(full := s1.value.full + {s.next}))
  }

  /** What exists lies below the cursor: the next node and the next slot are new. */
  ghost predicate Ready(s: State) {
    && (forall n :: n in s.cnodes ==> n * NODE_SLOTS < s.next)
    && (forall r :: r in s.full ==> r < s.next)
  }

  /** The node of the next slot exists, unless the next slot is its first. */
  predicate NodeHere(s: State) {
    s.next % NODE_SLOTS == 0 || s.next / NODE_SLOTS in s.cnodes
  }

  /** A start inside a node, with no node beyond that one, is ready. */
  lemma StartReady(s: State)
    requires s.next % NODE_SLOTS != 0 && s.full == {} && forall n :: n in s.cnodes ==> n <= s.next / NODE_SLOTS
    ensures Ready(s)
  {
  }

  class ObjectAllocator {
    var next: nat
    var end: nat
    var cnodes: set<nat>
    var full: set<nat>
    ghost var issued: set<nat>

    constructor (start: nat, stop: nat, nodes: set<nat>)
      ensures View() == State(start, stop, nodes, {}) && issued == {}
    {
      next, end, cnodes, full, issued := start, stop, nodes, {}, {};
    }

    ghost function View(): State
      reads this
    {
      State(next, end, cnodes, full)
    }

    /** Nothing beyond the cursor exists or has been handed out. */
    ghost predicate Valid()
      reads this
    {
      Ready(View()) && forall r :: r in issued ==> r < next
    }

    /** The kernel call that makes a node; it needs an empty root slot. */
    method RetypeNode(node: nat) returns (ok: bool)
      modifies this`cnodes
      ensures ok <==> node !in old(cnodes)
      ensures cnodes == old(cnodes) + {node}
    {
      ok := node !in cnodes;
      cnodes := cnodes + {node};
    }

    /** The kernel call that fills a slot of an existing node. */
    method RetypeObject(node: nat, raw: nat) returns (ok: bool)
      modifies this`full
      ensures ok <==> node in cnodes && raw !in old(full)
      ensures full == if ok then old(full) + {raw} else old(full)
    {
      ok := node in cnodes && raw !in full;
      if ok { full := full + {raw}; }
    }

    /** A number that was never handed out, and its node, which is there afterwards. */
    method AllocateSlot() returns (slot: nat, cnode: nat, raw: nat)
      requires Valid() && next < end
      modifies this
      ensures Valid() && Some(View()) == Step(old(View()), Slot)
      ensures raw !in old(issued) && issued == old(issued) + {raw}
      ensures slot < NODE_SLOTS && raw == cnode * NODE_SLOTS + slot && raw == old(next)
      ensures old(NodeHere(View())) ==> cnode in cnodes && NodeHere(View())
    {
      raw := next;
      next := next + 1;
      issued := issued + {raw};
      slot := raw % NODE_SLOTS;
      cnode := raw / NODE_SLOTS;
      if slot == 0 {
        var made := RetypeNode(cnode);
        assert made;
      }
    }

    /** An object in a slot of its own, in a node that exists. */
    method AllocateAndRetype() returns (raw: nat)
      requires Valid() && next < end && NodeHere(View())
      modifies this
      ensures Valid() && NodeHere(View()) && Some(View()) == Step(old(View()), Object)
      ensures raw !in old(issued) && issued == old(issued) + {raw} && raw in full && raw / NODE_SLOTS in cnodes
    {
      var slot, cnode;
      slot, cnode, raw := AllocateSlot();
      var made := RetypeObject(cnode, raw);
      assert made;
    }

    /** A number that was never handed out; the node of the next slot is there unless this was a first slot. */
    method AllocateUnchecked() returns (raw: nat)
      requires Valid() && next < end
      modifies this
      ensures Valid() && Some(View()) == Step(old(View()), Unchecked)
      ensures raw !in old(issued) && issued == old(issued) + {raw} && cnodes == old(cnodes)
      ensures old(NodeHere(View())) ==> (NodeHere(View()) <==> raw % NODE_SLOTS != 0 || raw / NODE_SLOTS in cnodes)
    {
      raw := next;
      next := next + 1;
      issued := issued + {raw};
    }
  }

  // ------------------------------------------------------------------ runs

  /** The state after the first `n` operations. */
  function Run(s: State, ops: seq<Op>, n: nat): Option<State>
    requires n <= |ops|
    decreases n
  {
    if n == 0 then Some(s)
    else if Run(s, ops, n - 1).None? then None
    else Step(Run(s, ops, n - 1).value, ops[n - 1])
  }

  /** The number that operation `i` hands out. */
  function Issued(s: State, ops: seq<Op>, i: nat): nat
    requires i < |ops| && Run(s, ops, i).Some?
  {
    Run(s, ops, i).value.next
  }

  lemma {:induction false} RunPrefix(s: State, ops: seq<Op>, i: nat, n: nat)
    requires i <= n <= |ops| && Run(s, ops, n).Some?
    ensures Run(s, ops, i).Some?
    decreases n
  {
    if i < n { RunPrefix(s, ops, i, n - 1); }
  }

  lemma {:induction false} RunNext(s: State, ops: seq<Op>, n: nat)
    requires n <= |ops| && Run(s, ops, n).Some?
    ensures Run(s, ops, n).value.next == s.next + n && Run(s, ops, n).value.end == s.end
    decreases n
  {
    if n > 0 { RunNext(s, ops, n - 1); }
  }

  /** No number is handed out twice, by whichever of the allocators. */
  lemma NeverTwice(s: State, ops: seq<Op>, i: nat, j: nat)
    requires i < j < |ops| && Run(s, ops, |ops|).Some?
    ensures Run(s, ops, i).Some? && Run(s, ops, j).Some? && Issued(s, ops, i) != Issued(s, ops, j)
  {
    RunPrefix(s, ops, i, |ops|);
    RunPrefix(s, ops, j, |ops|);
    RunNext(s, ops, i);
    RunNext(s, ops, j);
  }

  /** The node of `raw` was there from the start, or a checked operation consumed its first slot. */
  predicate Hosted(s: State, ops: seq<Op>, n: nat, raw: nat)
    requires n <= |ops|
  {
    var node := raw / NODE_SLOTS;
    var first := node * NODE_SLOTS;
    node in s.cnodes || (s.next <= first < s.next + n && !ops[first - s.next].Unchecked?)
  }

  /** Exactly which nodes exist after the first `n` operations. */
  lemma {:induction false} NodesAfter(s: State, ops: seq<Op>, n: nat, raw: nat)
    requires n <= |ops| && Run(s, ops, n).Some?
    ensures raw / NODE_SLOTS in Run(s, ops, n).value.cnodes <==> Hosted(s, ops, n, raw)
    decreases n
  {
    if n > 0 {
      NodesAfter(s, ops, n - 1, raw);
      RunNext(s, ops, n - 1);
      NodeOf(s.next + n - 1, raw);
      hide Run;
      StepNodes(Run(s, ops, n - 1).value, ops[n - 1], raw / NODE_SLOTS);
    }
  }

  lemma StepNodes(s: State, op: Op, node: nat)
    requires Step(s, op).Some?
    ensures node in Step(s, op).value.cnodes <==>
            node in s.cnodes || (!op.Unchecked? && s.next % NODE_SLOTS == 0 && s.next / NODE_SLOTS == node)
  {
  }

  lemma NodeOf(consumed: nat, raw: nat)
    ensures consumed % NODE_SLOTS == 0 && consumed / NODE_SLOTS == raw / NODE_SLOTS <==>
            consumed == raw / NODE_SLOTS * NODE_SLOTS
  {
  }

  /** Slots at or beyond the cursor are filled after a run only if they were before it. */
  lemma {:induction false} FullAfter(s: State, ops: seq<Op>, n: nat, raw: nat)
    requires n <= |ops| && Run(s, ops, n).Some? && raw >= s.next + n
    ensures raw in Run(s, ops, n).value.full <==> raw in s.full
    decreases n
  {
    if n > 0 {
      FullAfter(s, ops, n - 1, raw);
      RunNext(s, ops, n - 1);
    }
  }

  // ------------------------------------------------------------------ when the code goes on

  /**
   Operation `i` finds what it needs: a number; an empty root slot if it makes a node; a node and an
   empty slot if it makes an object.  All of it can be read off the start and the operations.
   */
  predicate Provided(s: State, ops: seq<Op>, i: nat)
    requires i < |ops|
  {
    var raw := s.next + i;
    && raw < s.end
    && (!ops[i].Unchecked? && raw % NODE_SLOTS == 0 ==> raw / NODE_SLOTS !in s.cnodes)
    && (ops[i].Object? ==> Hosted(s, ops, i + 1, raw) && raw !in s.full)
  }

  lemma ProvidedStep(s: State, ops: seq<Op>, i: nat)
    requires i < |ops| && Run(s, ops, i).Some?
    ensures Run(s, ops, i + 1).Some? <==> Provided(s, ops, i)
  {
    var raw, st := s.next + i, Run(s, ops, i).value;
    RunNext(s, ops, i);
    NodesAfter(s, ops, i, raw);
    FullAfter(s, ops, i, raw);
    assert raw % NODE_SLOTS == 0 ==> raw / NODE_SLOTS * NODE_SLOTS == raw;
    assert Run(s, ops, i + 1) == Step(st, ops[i]);
    NodeOf(raw, raw);
    hide Run;
  }

  /** No `unwrap` of the run fails if and only if every operation is provided for. */
  lemma {:induction false} GoesOnIff(s: State, ops: seq<Op>, n: nat)
    requires n <= |ops|
    ensures Run(s, ops, n).Some? <==> forall i :: 0 <= i < n ==> Provided(s, ops, i)
    decreases n
  {
    if n > 0 {
      GoesOnIff(s, ops, n - 1);
      if Run(s, ops, n - 1).Some? { ProvidedStep(s, ops, n - 1); }
      hide Provided;
    }
  }

  /** The slot that operation `i` handed out lies in an existing node when the operation returns. */
  predicate Lands(s: State, ops: seq<Op>, i: nat)
    requires i < |ops| && Run(s, ops, i + 1).Some?
  {
    (s.next + i) / NODE_SLOTS in Run(s, ops, i + 1).value.cnodes
  }

  /**
   A slot lies in an existing node exactly when its node existed at the start or the first slot of
   the node was consumed, in the run, by a checked allocation.
   */
  lemma LandsIff(s: State, ops: seq<Op>, i: nat)
    requires i < |ops| && Run(s, ops, i + 1).Some?
    ensures Lands(s, ops, i) <==> Hosted(s, ops, i + 1, s.next + i)
  {
    NodesAfter(s, ops, i + 1, s.next + i);
  }

  /** No unchecked allocation consumes the first slot of a node. */
  predicate KeepsFirstSlots(s: State, ops: seq<Op>) {
    forall i :: 0 <= i < |ops| && (s.next + i) % NODE_SLOTS == 0 ==> !ops[i].Unchecked?
  }

  lemma HostedAll(s: State, ops: seq<Op>, i: nat)
    requires i < |ops| && NodeHere(s) && KeepsFirstSlots(s, ops)
    ensures Hosted(s, ops, i + 1, s.next + i)
  {
    var first := (s.next + i) / NODE_SLOTS * NODE_SLOTS;
    assert first % NODE_SLOTS == 0;
    if first >= s.next {
      assert (s.next + (first - s.next)) % NODE_SLOTS == 0;
    } else {
      assert (s.next + i) / NODE_SLOTS == s.next / NODE_SLOTS;
    }
  }

  /** Then, from a ready start, nothing stops the run and every slot of it lies in an existing node. */
  lemma AllLand(s: State, ops: seq<Op>, i: nat)
    requires Ready(s) && NodeHere(s) && KeepsFirstSlots(s, ops) && s.next + |ops| <= s.end && i < |ops|
    ensures Run(s, ops, i + 1).Some? && Lands(s, ops, i)
  {
    forall j | 0 <= j < |ops| ensures Provided(s, ops, j) {
      HostedAll(s, ops, j);
      assert (s.next + j) % NODE_SLOTS == 0 ==> (s.next + j) / NODE_SLOTS * NODE_SLOTS == s.next + j;
    }
    GoesOnIff(s, ops, i + 1);
    HostedAll(s, ops, i);
    LandsIff(s, ops, i);
  }

  /** Every node made in a run from a ready start is new. */
  lemma NodesAreNew(s: State, ops: seq<Op>, i: nat)
    requires Ready(s) && i < |ops| && Run(s, ops, i).Some?
    ensures Issued(s, ops, i) % NODE_SLOTS == 0 ==> Issued(s, ops, i) / NODE_SLOTS !in Run(s, ops, i).value.cnodes
  {
    var raw := s.next + i;
    RunNext(s, ops, i);
    NodesAfter(s, ops, i, raw);
    if raw % NODE_SLOTS == 0 { assert raw / NODE_SLOTS * NODE_SLOTS == raw; }
  }

  // ------------------------------------------------------------------ runs that go wrong

  /** An unchecked allocation takes slot 4096: the next slot has no node. */
  lemma UncheckedFirstSlotStrands()
    ensures var s, ops := State(4095, 5000, {0}, {}), [Slot, Unchecked, Slot];
            Run(s, ops, 3).Some? && !Lands(s, ops, 2)
  {
    var s, ops := State(4095, 5000, {0}, {}), [Slot, Unchecked, Slot];
    GoesOnIff(s, ops, 3);
    LandsIff(s, ops, 2);
  }

  /** So an object cannot be made in it. */
  lemma UncheckedFirstSlotStops()
    ensures Run(State(4095, 5000, {0}, {}), [Slot, Unchecked, Object], 3).None?
  {
    assert !Provided(State(4095, 5000, {0}, {}), [Slot, Unchecked, Object], 2);
    GoesOnIff(State(4095, 5000, {0}, {}), [Slot, Unchecked, Object], 3);
  }

  /** A start at the first slot of a node that is there already: making the node fails. */
  lemma OccupiedNodeStops()
    ensures Run(State(4096, 5000, {1}, {}), [Slot], 1).None?
  {
    assert !Provided(State(4096, 5000, {1}, {}), [Slot], 0);
    GoesOnIff(State(4096, 5000, {1}, {}), [Slot], 1);
  }
}
