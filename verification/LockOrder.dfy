/**
 The locks of the socket layer: the cursor of the port scan, the two network interfaces with their
 devices, the socket set, and one lock for every entry of the listen table.  Accepting and dropping an
 entry lock the entry and then the socket set; connecting locks the socket set and then an interface;
 polling locks an interface and its device, then the socket set, and a first packet then locks its
 port's entry.  A thread that holds nothing chooses its next operation.
 */
module LockOrder {
  import opened Base

  datatype Net = Loopback | Eth

  datatype Lock = Cursor | Iface(net: Net) | Device(net: Net) | SetLock | EntryLock(port: nat)

  datatype Op =
    | Single(lock: Lock)                   // one lock alone: a socket looked up, a listener entered, a device measured
    | OnEntry(port: nat)                   // accept, ask whether one can accept, or drop an entry
    | Scan(ports: set<nat>)                // look for an ephemeral port
    | Connect(net: Net)
    | Poll(net: Net, ports: set<nat>)      // poll an interface that may hold first packets for these ports

  /** The locks an operation takes one inside the other. */
  function Outer(op: Op): seq<Lock> {
    match op
    case Single(l) => [l]
    case OnEntry(p) => [EntryLock(p)]
    case Scan(_) => [Cursor]
    case Connect(_) => [SetLock]
    case Poll(net, _) =>
      if net.Loopback? then [Iface(net), Device(net), SetLock] else [Device(net), Iface(net), SetLock]
  }

  /** The locks it takes inside all of these, one at a time and any number of times. */
  predicate Inner(op: Op, l: Lock) {
    match op
    case Single(_) => false
    case OnEntry(_) => l == SetLock
    case Scan(ps) => l.EntryLock? && l.port in ps
    case Connect(net) => l == Iface(net)
    case Poll(_, ps) => l.EntryLock? && l.port in ps
  }

  /** The operations a thread may perform, the one it performs, the locks it holds and the one it spins on. */
  datatype Thread = Thread(may: set<Op>, op: Option<Op>, held: seq<Lock>, want: Option<Lock>, closing: bool)

  type Threads = map<nat, Thread>

  datatype Action =
    | Choose(t: nat, op: Op)
    | Ask(t: nat, l: Lock)        // begin to spin on a lock
    | Get(t: nat)                 // the lock is free
    | Release(t: nat)             // the lock taken last

  predicate MayAsk(op: Op, held: seq<Lock>, l: Lock) {
    || (|held| < |Outer(op)| && held == Outer(op)[..|held|] && l == Outer(op)[|held|])
    || (held == Outer(op) && Inner(op, l))
  }

  predicate Free(s: Threads, l: Lock) {
    forall u :: u in s ==> l !in s[u].held
  }

  predicate Possible(s: Threads, a: Action) {
    && a.t in s && s[a.t].want.Some? == a.Get?
    && var th := s[a.t];
       match a
       case Choose(_, op) => th.op == None && op in th.may
       case Ask(_, l) => th.op.Some? && !th.closing && MayAsk(th.op.value, th.held, l)
       case Get(_) => Free(s, th.want.value)
       case Release(_) => th.op.Some? && th.held != []
  }

  /** A thread that has given back an outer lock gives back the others too, and is then done. */
  function Released(th: Thread): Thread
    requires th.op.Some? && th.held != []
  {
    var held := th.held[..|th.held| - 1];
    if held == [] then th.(op := None, held := held, closing := false)
    else th.(held := held, closing := th.closing || |th.held| <= |Outer(th.op.value)|)
  }

  function Moved(th: Thread, a: Action): Thread
    requires th.want.Some? == a.Get? && (a.Release? ==> th.op.Some? && th.held != [])
  {
    match a
    case Choose(_, op) => th.(op := Some(op))
    case Ask(_, l) => th.(want := Some(l))
    case Get(_) => th.(held := th.held + [th.want.value], want := None)
    case Release(_) => Released(th)
  }

  function Step(s: Threads, a: Action): Threads
    requires Possible(s, a)
  {
    s[a.t := Moved(s[a.t], a)]
  }

  /** `s'` is reached from `s` by the actions. */
  ghost predicate Reaches(s: Threads, acts: seq<Action>, s': Threads)
    decreases |acts|
  {
    if acts == [] then s' == s else Possible(s, acts[0]) && Reaches(Step(s, acts[0]), acts[1..], s')
  }

  function Resting(may: set<Op>): Thread {
    Thread(may, None, [], None, false)
  }

  ghost predicate Idle(s: Threads) {
    forall t :: t in s ==> s[t] == Resting(s[t].may)
  }

  /** `t` spins on a lock that `u` holds. */
  predicate WaitsFor(s: Threads, t: nat, u: nat) {
    t in s && u in s && s[t].want.Some? && s[t].want.value in s[u].held
  }

  /** Every thread of the map spins on a lock that the thread it is mapped to, which is in the map too, holds. */
  ghost predicate Stuck(s: Threads, waits: map<nat, nat>) {
    waits != map[] && forall t {:trigger waits[t]} :: t in waits ==> waits[t] in waits && WaitsFor(s, t, waits[t])
  }

  /** A thread that has given back an outer lock gives back the others, one after another, before anything else. */
  lemma Drains(s: Threads, t: nat, a: Action)
    requires t in s && Possible(s, Release(t)) && |s[t].held| <= |Outer(s[t].op.value)|
    requires var s' := Step(s, Release(t)); s'[t].held != [] && a.t == t && Possible(s', a)
    ensures var s' := Step(s, Release(t));
            a == Release(t) && s'[t].op == s[t].op && s'[t].held == s[t].held[..|s[t].held| - 1]
  {
  }

  // ------------------------------------------------------------------ stuck for good

  /** A thread that waits for a lock somebody holds takes no step. */
  lemma CannotMove(s: Threads, a: Action, u: nat)
    requires WaitsFor(s, a.t, u)
    ensures !Possible(s, a)
  {
  }

  lemma StillWaits(s: Threads, a: Action, t: nat, u: nat)
    requires Possible(s, a) && WaitsFor(s, t, u) && a.t != t && a.t != u
    ensures WaitsFor(Step(s, a), t, u)
  {
  }

  /** No thread of a stuck map takes another step, so it stays stuck. */
  lemma StuckStep(s: Threads, a: Action, waits: map<nat, nat>)
    requires Stuck(s, waits) && Possible(s, a)
    ensures Stuck(Step(s, a), waits)
  {
    hide Possible, Step, WaitsFor;
    if a.t in waits {
      CannotMove(s, a, waits[a.t]);
      assert false;
    }
    forall t | t in waits ensures WaitsFor(Step(s, a), t, waits[t]) { StillWaits(s, a, t, waits[t]); }
  }

  /** Stuck threads are stuck after every further run. */
  lemma {:induction false} StuckForever(s: Threads, acts: seq<Action>, s': Threads, waits: map<nat, nat>)
    requires Stuck(s, waits) && Reaches(s, acts, s')
    ensures Stuck(s', waits)
    decreases |acts|
  {
    hide Stuck, Possible, Step;
    if acts != [] {
      StuckStep(s, acts[0], waits);
      StuckForever(Step(s, acts[0]), acts[1..], s', waits);
    }
  }

  // ------------------------------------------------------------------ stuck threads cross

  /** A thread performs what it may, and whoever spins asked in the order of its operation. */
  predicate Orderly(th: Thread) {
    && (th.op.Some? ==> th.op.value in th.may)
    && (th.want.Some? ==> th.op.Some? && MayAsk(th.op.value, th.held, th.want.value))
  }

  ghost predicate InOrder(s: Threads) {
    forall t :: t in s ==> Orderly(s[t])
  }

  lemma OrderStep(s: Threads, a: Action)
    requires InOrder(s) && Possible(s, a)
    ensures InOrder(Step(s, a)) && Step(s, a).Keys == s.Keys && forall t :: t in s ==> Step(s, a)[t].may == s[t].may
  {
    assert Orderly(s[a.t]);
    hide MayAsk, Free;
  }

  lemma {:induction false} OrderKept(s: Threads, acts: seq<Action>, s': Threads)
    requires InOrder(s) && Reaches(s, acts, s')
    ensures InOrder(s') && s'.Keys == s.Keys && forall t :: t in s ==> s'[t].may == s[t].may
    decreases |acts|
  {
    hide InOrder, Possible, Step;
    if acts != [] {
      OrderStep(s, acts[0]);
      OrderKept(Step(s, acts[0]), acts[1..], s');
    }
  }

  /** What a spinning thread that holds `l` can be doing. */
  predicate HolderDoes(op: Op, l: Lock, want: Lock) {
    match op
    case OnEntry(p) => l == EntryLock(p) && want == SetLock
    case Scan(_) => l == Cursor && want.EntryLock?
    case Connect(net) => l == SetLock && want == Iface(net)
    case Poll(net, ps) =>
      && l in {Iface(net), Device(net), SetLock}
      && if want.EntryLock? then want.port in ps
         else l != SetLock && (want == SetLock || (if net.Loopback? then l == Iface(net) && want == Device(net)
                                                   else l == Device(net) && want == Iface(net)))
    case _ => false
  }

  lemma Holder(op: Op, held: seq<Lock>, l: Lock, want: Lock)
    requires MayAsk(op, held, want) && l in held
    ensures HolderDoes(op, l, want)
  {
    var out := Outer(op);
    var i :| 0 <= i < |held| && held[i] == l;
    if held != out {
      assert held[i] == out[i] && i < |held| < |out|;
    } else {
      assert l == out[i];
    }
  }

  /** Work on an entry and a poll that can meet a packet for its port, or a connect and a poll of its interface. */
  predicate Cross(x: Op, y: Op) {
    y.Poll? && ((x.OnEntry? && x.port in y.ports) || (x.Connect? && x.net == y.net))
  }

  ghost predicate Crossing(s: Threads, t: nat, u: nat, x: Op, y: Op) {
    t in s && u in s && t != u && x in s[t].may && y in s[u].may && Cross(x, y)
  }

  /** The operation of a stuck thread, and what it wants. */
  ghost predicate Doing(s: Threads, t: nat, op: Op, want: Lock) {
    t in s && s[t].op == Some(op) && s[t].want == Some(want) && op in s[t].may && MayAsk(op, s[t].held, want)
  }

  lemma StuckDoes(s: Threads, t: nat, u: nat) returns (op: Op, want: Lock)
    requires InOrder(s) && WaitsFor(s, t, u)
    ensures Doing(s, t, op, want)
  {
    assert Orderly(s[t]);
    op, want := s[t].op.value, s[t].want.value;
  }

  /** The stuck thread that a stuck thread waits for, and what that one is doing. */
  lemma NextStuck(s: Threads, waits: map<nat, nat>, t: nat, want: Lock) returns (u: nat, op: Op, want': Lock)
    requires InOrder(s) && Stuck(s, waits) && t in waits && t in s && s[t].want == Some(want)
    ensures u in waits && Doing(s, u, op, want') && HolderDoes(op, want, want')
  {
    hide InOrder, MayAsk, HolderDoes;
    u := waits[t];
    assert WaitsFor(s, u, waits[u]);
    op, want' := StuckDoes(s, u, waits[u]);
    Holder(op, s[u].held, want, want');
  }

  /** How far from the socket set a wanted lock is. */
  function Distance(l: Lock): nat {
    match l
    case SetLock => 0
    case EntryLock(_) => 1
    case Cursor => 2
    case Iface(net) => if net.Loopback? then 3 else 2
    case Device(net) => if net.Loopback? then 2 else 3
  }

  /** Whoever holds a lock other than the socket set wants one that is closer to it. */
  lemma Closer(op: Op, l: Lock, want: Lock)
    requires HolderDoes(op, l, want) && l != SetLock
    ensures Distance(want) < Distance(l)
  {
  }

  /** Some stuck thread wants the socket set. */
  lemma {:induction false} SomeWantsSet(s: Threads, waits: map<nat, nat>, t: nat, want: Lock) returns (u: nat)
    requires InOrder(s) && Stuck(s, waits) && t in waits && t in s && s[t].want == Some(want)
    ensures u in waits && u in s && s[u].want == Some(SetLock)
    decreases Distance(want)
  {
    hide InOrder, MayAsk, Stuck, HolderDoes, Distance;
    if want == SetLock {
      u := t;
    } else {
      var v, op, want' := NextStuck(s, waits, t, want);
      Closer(op, want, want');
      u := SomeWantsSet(s, waits, v, want');
    }
  }

  lemma SomeStuck(s: Threads, waits: map<nat, nat>) returns (t: nat, want: Lock)
    requires Stuck(s, waits)
    ensures t in waits && t in s && s[t].want == Some(want)
  {
    t :| t in waits;
    assert WaitsFor(s, t, waits[t]);
    want := s[t].want.value;
  }

  /** Whoever holds the socket set and spins crosses whoever holds what it wants and spins. */
  lemma HoldersCross(x: Op, want: Lock, y: Op, want': Lock)
    requires HolderDoes(x, SetLock, want) && HolderDoes(y, want, want')
    ensures x != y && if x.Poll? then Cross(y, x) else Cross(x, y)
  {
  }

  /** Among stuck threads two cross. */
  lemma StuckCrosses(s: Threads, waits: map<nat, nat>) returns (t: nat, u: nat, x: Op, y: Op)
    requires InOrder(s) && Stuck(s, waits)
    ensures Crossing(s, t, u, x, y)
  {
    hide InOrder, MayAsk, Stuck, HolderDoes, Cross;
    var t0, want0 := SomeStuck(s, waits);
    var a := SomeWantsSet(s, waits, t0, want0);
    var b, op, want := NextStuck(s, waits, a, SetLock);
    var c, op', want' := NextStuck(s, waits, b, want);
    HoldersCross(op, want, op', want');
    if op.Poll? {
      t, u, x, y := c, b, op', op;
    } else {
      t, u, x, y := b, c, op, op';
    }
  }

  // ------------------------------------------------------------------ crossing threads can get stuck

  lemma {:induction false} Extend(s: Threads, acts: seq<Action>, s1: Threads, a: Action)
    requires Reaches(s, acts, s1) && Possible(s1, a)
    ensures Reaches(s, acts + [a], Step(s1, a))
    decreases |acts|
  {
    hide Possible, Step;
    var all := acts + [a];
    if acts == [] {
      assert all[1..] == [] && all[0] == a;
    } else {
      assert all[1..] == acts[1..] + [a] && all[0] == acts[0];
      Extend(Step(s, acts[0]), acts[1..], s1, a);
    }
  }

  /** Can be reached by some actions. */
  ghost predicate Leads(s: Threads, s': Threads) {
    exists acts :: Reaches(s, acts, s')
  }

  lemma Next(s: Threads, s1: Threads, a: Action)
    requires Leads(s, s1) && Possible(s1, a)
    ensures Leads(s, Step(s1, a))
  {
    var acts :| Reaches(s, acts, s1);
    hide Reaches, Possible, Step;
    Extend(s, acts, s1, a);
  }

  /** A thread at work on `op` with its first `n` locks. */
  function At(may: set<Op>, op: Op, n: nat): Thread
    requires n <= |Outer(op)|
  {
    Thread(may, Some(op), Outer(op)[..n], None, false)
  }

  lemma Chooses(s: Threads, s1: Threads, t: nat, op: Op) returns (s2: Threads)
    requires Leads(s, s1) && t in s1 && s1[t] == Resting(s1[t].may) && op in s1[t].may
    ensures s2 == s1[t := At(s1[t].may, op, 0)] && Leads(s, s2)
  {
    hide Leads;
    Next(s, s1, Choose(t, op));
    s2 := Step(s1, Choose(t, op));
  }

  /** The next outer lock, which nobody holds. */
  lemma Takes(s: Threads, s1: Threads, t: nat, may: set<Op>, op: Op, n: nat) returns (s2: Threads)
    requires n < |Outer(op)| && Leads(s, s1) && t in s1 && s1[t] == At(may, op, n) && Free(s1, Outer(op)[n])
    ensures s2 == s1[t := At(may, op, n + 1)] && Leads(s, s2)
  {
    var l := Outer(op)[n];
    assert Outer(op)[..n] + [l] == Outer(op)[..n + 1];
    hide Leads, Outer;
    Next(s, s1, Ask(t, l));
    var s' := Step(s1, Ask(t, l));
    assert Free(s', l);
    Next(s, s', Get(t));
    s2 := Step(s', Get(t));
  }

  lemma Asks(s: Threads, s1: Threads, t: nat, may: set<Op>, op: Op, n: nat, l: Lock) returns (s2: Threads)
    requires n <= |Outer(op)| && Leads(s, s1) && t in s1 && s1[t] == At(may, op, n) && MayAsk(op, Outer(op)[..n], l)
    ensures s2 == s1[t := At(may, op, n).(want := Some(l))] && Leads(s, s2)
  {
    hide Leads, MayAsk;
    Next(s, s1, Ask(t, l));
    s2 := Step(s1, Ask(t, l));
  }

  /** All threads but these rest. */
  ghost predicate OthersRest(s: Threads, t: nat, u: nat) {
    forall v :: v in s && v != t && v != u ==> s[v].held == []
  }

  lemma FreeOf(s: Threads, t: nat, u: nat, l: Lock)
    requires OthersRest(s, t, u) && t in s && u in s && l !in s[t].held && l !in s[u].held
    ensures Free(s, l)
  {
  }

  /** Both have chosen, and `t` has its outer lock. */
  lemma FirstHolds(s: Threads, t: nat, u: nat, x: Op, y: Op) returns (s': Threads)
    requires Idle(s) && Crossing(s, t, u, x, y)
    ensures s' == s[t := At(s[t].may, x, 1)][u := At(s[u].may, y, 0)] && Leads(s, s') && OthersRest(s', t, u)
  {
    assert Reaches(s, [], s);
    hide Leads;
    var s1 := Chooses(s, s, t, x);
    var s2 := Chooses(s, s1, u, y);
    FreeOf(s2, t, u, Outer(x)[0]);
    s' := Takes(s, s2, t, s[t].may, x, 0);
  }

  /** The poller takes its next `n` locks, none of which is the other's. */
  lemma {:induction false} PollerTakes(s: Threads, s1: Threads, t: nat, u: nat, may: set<Op>, y: Op, n: nat)
    returns (s': Threads)
    requires Leads(s, s1) && t in s1 && u in s1 && t != u && OthersRest(s1, t, u)
    requires y.Poll? && s1[u] == At(may, y, 0) && n <= 3
    requires forall i :: 0 <= i < n ==> Outer(y)[i] !in s1[t].held
    ensures s' == s1[u := At(may, y, n)] && Leads(s, s')
    decreases n
  {
    hide Leads;
    if n == 0 {
      s' := s1;
    } else {
      var s2 := PollerTakes(s, s1, t, u, may, y, n - 1);
      FreeOf(s2, t, u, Outer(y)[n - 1]);
      s' := Takes(s, s2, u, may, y, n - 1);
    }
  }

  lemma BothWait(s: Threads, t: nat, u: nat)
    requires WaitsFor(s, t, u) && WaitsFor(s, u, t) && t != u
    ensures Stuck(s, map[t := u, u := t])
  {
    var waits := map[t := u, u := t];
    hide WaitsFor;
    assert waits[t] == u && waits[u] == t;
  }

  /** The worker has its entry, the poller all its locks; each then asks for what the other has. */
  lemma EntrySticks(s: Threads, t: nat, u: nat, x: Op, y: Op) returns (s': Threads)
    requires Idle(s) && Crossing(s, t, u, x, y) && x.OnEntry?
    ensures Leads(s, s') && Stuck(s', map[t := u, u := t])
  {
    hide Leads;
    var s1 := FirstHolds(s, t, u, x, y);
    var s2 := PollerTakes(s, s1, t, u, s[u].may, y, 3);
    var s3 := Asks(s, s2, t, s[t].may, x, 1, SetLock);
    s' := Asks(s, s3, u, s[u].may, y, 3, EntryLock(x.port));
    assert s'[t].held == [EntryLock(x.port)] && s'[u].held == Outer(y);
    assert s'[u].held[2] == SetLock;
    BothWait(s', t, u);
  }

  /** The connector has the socket set, the poller its interface and device; each then asks for what the other has. */
  lemma ConnectSticks(s: Threads, t: nat, u: nat, x: Op, y: Op) returns (s': Threads)
    requires Idle(s) && Crossing(s, t, u, x, y) && x.Connect?
    ensures Leads(s, s') && Stuck(s', map[t := u, u := t])
  {
    hide Leads;
    var s1 := FirstHolds(s, t, u, x, y);
    var s2 := PollerTakes(s, s1, t, u, s[u].may, y, 2);
    var s3 := Asks(s, s2, t, s[t].may, x, 1, Iface(x.net));
    s' := Asks(s, s3, u, s[u].may, y, 2, SetLock);
    assert s'[t].held == [SetLock] && s'[u].held == Outer(y)[..2];
    assert s'[u].held[0] == Iface(x.net) || s'[u].held[1] == Iface(x.net);
    BothWait(s', t, u);
  }

  // ------------------------------------------------------------------ the exact condition

  ghost predicate CanStick(s: Threads) {
    exists s', waits :: Leads(s, s') && Stuck(s', waits)
  }

  /**
   Threads can get stuck if and only if two of them cross: one may work on an entry for whose port the
   other can meet a first packet, or one may connect through an interface that the other polls.
   */
  lemma SticksIffCrossing(s: Threads)
    requires Idle(s)
    ensures CanStick(s) <==> exists t, u, x, y :: Crossing(s, t, u, x, y)
  {
    hide Stuck, Reaches;
    if CanStick(s) {
      var s', waits :| Leads(s, s') && Stuck(s', waits);
      var acts :| Reaches(s, acts, s');
      OrderKept(s, acts, s');
      var t, u, x, y := StuckCrosses(s', waits);
      assert Crossing(s, t, u, x, y);
    }
    if t, u, x, y :| Crossing(s, t, u, x, y) {
      var s';
      if x.OnEntry? { s' := EntrySticks(s, t, u, x, y); } else { s' := ConnectSticks(s, t, u, x, y); }
    }
  }

  /** One thread alone never gets stuck, whatever operations it performs one after the other. */
  lemma OneThreadIsSafe(s: Threads, t: nat)
    requires Idle(s) && s.Keys == {t}
    ensures !CanStick(s)
  {
    SticksIffCrossing(s);
    forall a, b, x, y ensures !Crossing(s, a, b, x, y) {
      if a in s && b in s { assert a in s.Keys && b in s.Keys; }
    }
  }

  /** A blocking accept polls both interfaces and works on its entry, again and again. */
  function Accepting(port: nat, ports: set<nat>): set<Op> {
    {Poll(Loopback, ports), Poll(Eth, ports), OnEntry(port)}
  }

  /** A blocking connect looks for a port, connects, polls, and looks at its socket. */
  function Connecting(net: Net, scanned: set<nat>, ports: set<nat>): set<Op> {
    {Scan(scanned), Connect(net), Poll(Loopback, ports), Poll(Eth, ports), Single(SetLock)}
  }

  /** Two threads that accept on one port can get stuck as soon as a first packet can come for it. */
  lemma TwoAcceptsStick(port: nat, ports: set<nat>)
    requires port in ports
    ensures CanStick(map[0 := Resting(Accepting(port, ports)), 1 := Resting(Accepting(port, ports))])
  {
    var s := map[0 := Resting(Accepting(port, ports)), 1 := Resting(Accepting(port, ports))];
    SticksIffCrossing(s);
    assert Crossing(s, 0, 1, OnEntry(port), Poll(Eth, ports));
  }

  /** Two threads that connect through one interface can get stuck without any packet. */
  lemma TwoConnectsStick(net: Net, scanned: set<nat>)
    ensures CanStick(map[0 := Resting(Connecting(net, scanned, {})), 1 := Resting(Connecting(net, scanned, {}))])
  {
    var s := map[0 := Resting(Connecting(net, scanned, {})), 1 := Resting(Connecting(net, scanned, {}))];
    SticksIffCrossing(s);
    assert Crossing(s, 0, 1, Connect(net), Poll(net, {}));
  }
}
