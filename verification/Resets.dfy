/**
 Connections that are reset before they are accepted.  `accept` takes their handle out of the queue
 and reports the reset, but the handle stays in the socket set: nobody holds it any more, so nobody
 can remove it.
 */
module Resets {
  import opened Base
  import opened Ordering
  import opened SynQueue
  import opened Ports
  import opened NetWorld
  import opened NetRuns
  import SS = SocketState

  /** A live handle that neither a socket nor a queue holds. */
  ghost predicate Unheld(w: World, h: Handle) {
    h in w.live && forall o :: !Holds(w, o, h)
  }

  // ------------------------------------------------------------------ how a handle gets lost

  /** An accept that reports a reset leaves the handle it took live and unheld. */
  lemma ResetLosesHandle(w: World, id: nat, newId: nat, addr: nat)
    requires Inv(w) && id in w.socks && newId !in w.socks && Accept(w, id, newId, addr).1 == ConnectionReset
    ensures var p := w.socks[id].port;
            && p < |w.table| && w.table[p].Some?
            && var q := w.table[p].value.queue;
            && var i := FirstConnected(q, ConnectedOf(w));
            && i < |q| && Unheld(Accept(w, id, newId, addr).0, q[i])
  {
    AcceptIs(w, id, newId, addr);
    var p := w.socks[id].port;
    var i := FirstConnected(w.table[p].value.queue, ConnectedOf(w));
    var w' := Accept(w, id, newId, addr).0;
    hide Accept, FirstConnected, Agrees;
    TakeOwned(w, p, i);
    assert forall o, k :: Holds(w', o, k) <==> Holds(Take(w, p, i), o, k);
  }

  // ------------------------------------------------------------------ lost for good

  lemma AcceptKeepsUnheld(w: World, id: nat, newId: nat, addr: nat, h: Handle)
    requires Inv(w) && id in w.socks && newId !in w.socks && Unheld(w, h)
    ensures Unheld(Accept(w, id, newId, addr).0, h)
  {
    AcceptIs(w, id, newId, addr);
    var (w', r) := Accept(w, id, newId, addr);
    if r == Ok || r == ConnectionReset {
      var p := w.socks[id].port;
      var q := w.table[p].value.queue;
      var i := FirstConnected(q, ConnectedOf(w));
      hide Accept, FirstConnected, Inv;
      assert Holds(w, OfQueue(p, i), q[i]);
      forall o ensures !Holds(w', o, h) {
        if o != OfSock(newId) && Holds(Take(w, p, i), o, h) { TakeHolders(w, p, i, o, h); }
      }
    }
  }

  lemma UnlistenKeepsUnheld(w: World, p: nat, h: Handle)
    requires p < |w.table| && Unheld(w, h)
    ensures Unheld(Unlisten(w, p), h)
  {
    var w' := Unlisten(w, p);
    if w.table[p].Some? {
      var q := w.table[p].value.queue;
      forall i | 0 <= i < |q| ensures q[i] != h { assert !Holds(w, OfQueue(p, i), h); }
    }
    forall o ensures !Holds(w', o, h) { assert Holds(w', o, h) ==> Holds(w, o, h); }
  }

  lemma ShutdownKeepsUnheld(w: World, id: nat, h: Handle)
    requires Inv(w) && id in w.socks && Unheld(w, h)
    ensures Unheld(Shutdown(w, id), h)
  {
    var s := w.socks[id];
    assert !Holds(w, OfSock(id), h);
    var w1 := SetSock(w, id, s.(st := SS.Closed, addr := 0, port := 0));
    forall o ensures !Holds(w1, o, h) { assert Holds(w1, o, h) ==> Holds(w, o, h); }
    if s.st == SS.Listening {
      assert Listens(w, id, s.port);
      UnlistenKeepsUnheld(w1, s.port, h);
    } else if s.st == SS.Connected {
      var w2 := Shutdown(w, id);
      forall o ensures !Holds(w2, o, h) { assert Holds(w2, o, h) ==> Holds(w1, o, h); }
    }
  }

  lemma DropKeepsUnheld(w: World, id: nat, h: Handle)
    requires Inv(w) && id in w.socks && Unheld(w, h)
    ensures Unheld(Drop(w, id), h)
  {
    ShutdownKeepsUnheld(w, id, h);
    assert !Holds(w, OfSock(id), h);
    var w1, w' := Shutdown(w, id), Drop(w, id);
    hide Shutdown, Inv;
    forall o ensures !Holds(w', o, h) { assert Holds(w', o, h) ==> Holds(w1, o, h); }
  }

  lemma ListenKeepsUnheld(w: World, id: nat, h: Handle)
    requires id in w.socks && Unheld(w, h)
    ensures Unheld(Listen(w, id).0, h)
  {
    ListenIs(w, id);
    var w' := Listen(w, id).0;
    hide Listen;
    forall o ensures !Holds(w', o, h) { assert Holds(w', o, h) ==> Holds(w, o, h); }
  }

  /** Operations that give no handle away. */
  lemma OthersKeepUnheld(w: World, op: NetOp, h: Handle)
    requires Inv(w) && Enabled(w, op) && Unheld(w, h)
    requires op.DoNew? || op.DoBind? || op.DoConnect? || op.DoPoll? || op.DoIncoming? || op.TcpMoves?
    ensures Unheld(Apply(w, op), h)
  {
    var w' := Apply(w, op);
    assert h in w'.live;
    hide Owned, Agrees, Scan;
    forall o ensures !Holds(w', o, h) {
      assert !Holds(w, o, h);
    }
  }

  /** Nobody can remove what nobody holds: every operation leaves the handle live and unheld. */
  lemma UnheldStep(w: World, op: NetOp, h: Handle)
    requires Inv(w) && Enabled(w, op) && Unheld(w, h)
    ensures Unheld(Apply(w, op), h)
  {
    hide Inv, Unheld;
    match op
    case DoListen(id) => ListenKeepsUnheld(w, id, h);
    case DoAccept(id, newId, addr) => AcceptKeepsUnheld(w, id, newId, addr, h);
    case DoShutdown(id) => ShutdownKeepsUnheld(w, id, h);
    case DoDrop(id) => DropKeepsUnheld(w, id, h);
    case _ => OthersKeepUnheld(w, op, h);
  }

  /** Over every later run the handle stays live and unheld. */
  lemma {:induction false} UnheldForever(w: World, ops: seq<NetOp>, h: Handle)
    requires Inv(w) && Unheld(w, h) && Run(w, ops).Some?
    ensures Unheld(Run(w, ops).value, h)
    decreases |ops|
  {
    hide Owned, Agrees, Unheld, NetRuns.Stops;
    if ops != [] {
      if Enabled(w, ops[0]) {
        StepKeeps(w, ops[0]);
        UnheldStep(w, ops[0], h);
        UnheldForever(Apply(w, ops[0]), ops[1..], h);
      } else {
        UnheldForever(w, ops[1..], h);
      }
    }
  }

  // ------------------------------------------------------------------ exactly when handles are lost

  function HandlesOf(socks: map<nat, Sock>): set<Handle> {
    set id | id in socks :: socks[id].handle
  }

  ghost predicate Injective(socks: map<nat, Sock>) {
    forall i, j :: i in socks && j in socks && socks[i].handle == socks[j].handle ==> i == j
  }

  lemma {:induction false} HandlesCount(socks: map<nat, Sock>)
    requires Injective(socks)
    ensures |HandlesOf(socks)| == |socks|
    decreases |socks|
  {
    if socks != map[] {
      var id :| id in socks;
      var rest := socks - {id};
      MinusCount(socks, {id});
      HandlesCount(rest);
      forall h | h in HandlesOf(socks) ensures h in HandlesOf(rest) + {socks[id].handle} {
        var j :| j in socks && socks[j].handle == h;
        assert j == id || (j in rest && rest[j].handle == h);
      }
      assert HandlesOf(socks) == HandlesOf(rest) + {socks[id].handle};
    }
  }

  function QueueOfEntry(e: Option<Entry>): seq<Handle> {
    if e.Some? then e.value.queue else []
  }

  function AllQueued(table: seq<Option<Entry>>): set<Handle>
    decreases |table|
  {
    if table == [] then {} else Elements(QueueOfEntry(table[0])) + AllQueued(table[1..])
  }

  lemma {:induction false} InAllQueued(table: seq<Option<Entry>>, h: Handle)
    ensures h in AllQueued(table) <==> exists p :: 0 <= p < |table| && h in QueueOfEntry(table[p])
    decreases |table|
  {
    if table != [] {
      InAllQueued(table[1..], h);
      assert forall p :: 0 < p < |table| ==> table[p] == table[1..][p - 1];
      if h in AllQueued(table[1..]) {
        var p :| 0 <= p < |table[1..]| && h in QueueOfEntry(table[1..][p]);
        assert h in QueueOfEntry(table[p + 1]);
      }
      if p :| 0 <= p < |table| && h in QueueOfEntry(table[p]) {
        if p > 0 { assert h in QueueOfEntry(table[1..][p - 1]); }
      }
    }
  }

  /** No handle twice in a queue or in two queues. */
  ghost predicate Apart(table: seq<Option<Entry>>) {
    && (forall p :: 0 <= p < |table| ==> Distinct(QueueOfEntry(table[p])))
    && (forall p, q, h :: 0 <= p < q < |table| && h in QueueOfEntry(table[p]) ==> h !in QueueOfEntry(table[q]))
  }

  lemma {:induction false} QueuedCount(table: seq<Option<Entry>>)
    requires Apart(table)
    ensures |AllQueued(table)| == Queued(table)
    decreases |table|
  {
    if table != [] {
      var rest := table[1..];
      assert forall p :: 0 <= p < |rest| ==> rest[p] == table[p + 1];
      QueuedCount(rest);
      DistinctCount(QueueOfEntry(table[0]));
      forall h | h in QueueOfEntry(table[0]) ensures h !in AllQueued(rest) { InAllQueued(rest, h); }
      assert Elements(QueueOfEntry(table[0])) !! AllQueued(rest);
    }
  }

  lemma QueuesApart(w: World)
    requires Owned(w)
    ensures Apart(w.table)
  {
    forall p | 0 <= p < |w.table| ensures Distinct(QueueOfEntry(w.table[p])) {
      if w.table[p].Some? { QueueHandles(w, p); }
    }
    forall p, q, h | 0 <= p < q < |w.table| && h in QueueOfEntry(w.table[p]) ensures h !in QueueOfEntry(w.table[q]) {
      if h in QueueOfEntry(w.table[q]) { TwoQueues(w, p, q, h); }
    }
  }

  lemma TwoQueues(w: World, p: nat, q: nat, h: Handle)
    requires Owned(w) && p < |w.table| && q < |w.table|
    requires h in QueueOfEntry(w.table[p]) && h in QueueOfEntry(w.table[q])
    ensures p == q
  {
    var a, b := QueueOfEntry(w.table[p]), QueueOfEntry(w.table[q]);
    var i :| 0 <= i < |a| && a[i] == h;
    var j :| 0 <= j < |b| && b[j] == h;
    assert Holds(w, OfQueue(p, i), h) && Holds(w, OfQueue(q, j), h);
  }

  ghost function Held(w: World): set<Handle> {
    HandlesOf(w.socks) + AllQueued(w.table)
  }

  lemma HeldIff(w: World, h: Handle)
    ensures h in Held(w) <==> exists o :: Holds(w, o, h)
  {
    InAllQueued(w.table, h);
    if h in HandlesOf(w.socks) {
      var id :| id in w.socks && w.socks[id].handle == h;
      assert Holds(w, OfSock(id), h);
    }
    if h in AllQueued(w.table) {
      var p :| 0 <= p < |w.table| && h in QueueOfEntry(w.table[p]);
      var q := QueueOfEntry(w.table[p]);
      var i :| 0 <= i < |q| && q[i] == h;
      assert Holds(w, OfQueue(p, i), h);
    }
    if o :| Holds(w, o, h) {
      if o.OfQueue? { assert h in QueueOfEntry(w.table[o.port]); }
    }
  }

  lemma SockAndQueue(w: World, h: Handle)
    requires Owned(w) && h in HandlesOf(w.socks)
    ensures h !in AllQueued(w.table)
  {
    var id :| id in w.socks && w.socks[id].handle == h;
    assert Holds(w, OfSock(id), h);
    InAllQueued(w.table, h);
    if h in AllQueued(w.table) {
      var p :| 0 <= p < |w.table| && h in QueueOfEntry(w.table[p]);
      InOneQueue(w, p, id, h);
      assert false;
    }
  }

  lemma InOneQueue(w: World, p: nat, id: nat, h: Handle)
    requires Owned(w) && p < |w.table| && Holds(w, OfSock(id), h)
    ensures h !in QueueOfEntry(w.table[p])
  {
    var q := QueueOfEntry(w.table[p]);
    forall i | 0 <= i < |q| ensures q[i] != h { assert Holds(w, OfQueue(p, i), q[i]); }
  }

  /** Every holder has a handle of its own, so the held handles are as many as the holders. */
  lemma HeldCount(w: World)
    requires Owned(w)
    ensures |Held(w)| == |w.socks| + Queued(w.table) && Held(w) <= w.live.Keys
  {
    forall i, j | i in w.socks && j in w.socks && w.socks[i].handle == w.socks[j].handle ensures i == j {
      assert Holds(w, OfSock(i), w.socks[i].handle) && Holds(w, OfSock(j), w.socks[i].handle);
    }
    forall h | h in Held(w) ensures h in w.live { HeldIff(w, h); }
    QueuesApart(w);
    forall h | h in HandlesOf(w.socks) ensures h !in AllQueued(w.table) { SockAndQueue(w, h); }
    hide Owned, Queued, AllQueued, HandlesOf;
    HandlesCount(w.socks);
    QueuedCount(w.table);
  }

  /** In every world in order some live handle is held by nobody if and only if an accept has reported a reset. */
  lemma LostIffReset(w: World)
    requires Inv(w)
    ensures (exists h :: Unheld(w, h)) <==> w.resets > 0
  {
    HeldCount(w);
    assert |w.live| == |w.live.Keys|;
    assert |w.live.Keys - Held(w)| == |w.live.Keys| - |Held(w)|;
    forall h ensures Unheld(w, h) <==> h in w.live.Keys - Held(w) { HeldIff(w, h); }
    var lost := w.live.Keys - Held(w);
    assert w.resets == |lost|;
    hide Owned, Agrees, Held, Unheld;
    if w.resets > 0 {
      var h :| h in lost;
      assert Unheld(w, h);
    }
  }

  // ------------------------------------------------------------------ a run that loses a handle

  lemma {:induction false} Then(w: World, ops: seq<NetOp>, w1: World, op: NetOp)
    requires Inv(w) && Inv(w1) && Run(w, ops) == Some(w1) && Enabled(w1, op) && !NetRuns.Stops(w1, op)
    ensures Run(w, ops + [op]) == Some(Apply(w1, op)) && Inv(Apply(w1, op))
    decreases |ops|
  {
    hide Inv, NetRuns.Stops, Apply;
    StepKeeps(w1, op);
    var all := ops + [op];
    if ops == [] {
      assert all[1..] == [] && all[0] == op;
    } else {
      assert all[1..] == ops[1..] + [op] && all[0] == ops[0];
      if Enabled(w, ops[0]) {
        StepKeeps(w, ops[0]);
        Then(Apply(w, ops[0]), ops[1..], w1, op);
      } else {
        Then(w, ops[1..], w1, op);
      }
    }
  }

  /** Socket 0, with handle 5, before it listens. */
  function Fresh(port: nat): World {
    World(map[5 := TcpClosed], NoEntries(PORT_NUM), map[0 := Sock(SS.Closed, 5, 0, port)], PORT_START, 0)
  }

  /** It listens on port 80, with this queue. */
  function Server(live: map<Handle, TcpState>, queue: seq<Handle>): World {
    var table := NoEntries(PORT_NUM)[80 := Some(Entry(None, queue))];
    World(live, table, map[0 := Sock(SS.Listening, 5, 0, 80)], PORT_START, 0)
  }

  /** The operation is enabled in `w`, does not stop the program and leads to `w'`. */
  ghost predicate Leads(w: World, op: NetOp, w': World)
    requires Inv(w)
  {
    Enabled(w, op) && !NetRuns.Stops(w, op) && Apply(w, op) == w'
  }

  lemma Follow(ops: seq<NetOp>, w: World, op: NetOp, w': World)
    requires Inv(Start()) && Inv(w) && Run(Start(), ops) == Some(w) && Leads(w, op, w')
    ensures Run(Start(), ops + [op]) == Some(w') && Inv(w')
  {
    hide Inv, Run, Start, NetRuns.Stops, Apply;
    Then(Start(), ops, w, op);
  }

  lemma Creates()
    requires Inv(Start())
    ensures Leads(Start(), DoNew(0, 5), Fresh(0))
  {
    hide Inv, NoEntries;
  }

  lemma Binds()
    requires Inv(Fresh(0))
    ensures Leads(Fresh(0), DoBind(0, 0, 80, false), Fresh(80))
  {
    hide Inv, NoEntries;
  }

  lemma Listens80()
    requires Inv(Fresh(80))
    ensures Leads(Fresh(80), DoListen(0), Server(map[5 := TcpClosed], []))
  {
    hide Inv;
  }

  lemma Arrives(l: map<Handle, TcpState>)
    requires 6 !in l && Inv(Server(l, []))
    ensures Leads(Server(l, []), DoIncoming(80, 9, 6), Server(l[6 := TcpListen], [6]))
  {
    assert [] + [6] == [6];
    hide Inv;
  }

  lemma Changes(l: map<Handle, TcpState>, to: TcpState)
    requires 6 in l && Inv(Server(l, [6]))
    ensures Leads(Server(l, [6]), TcpMoves(6, to), Server(l[6 := to], [6]))
  {
    hide Inv;
  }

  function Listening(): seq<NetOp> {
    [] + [DoNew(0, 5)] + [DoBind(0, 0, 80, false)] + [DoListen(0)]
  }

  lemma ServerListens()
    ensures Inv(Start()) && Inv(Server(map[5 := TcpClosed], []))
    ensures Run(Start(), Listening()) == Some(Server(map[5 := TcpClosed], []))
  {
    StartOk();
    assert Run(Start(), []) == Some(Start());
    hide Inv, Run, Start, Fresh, Server, Leads;
    Creates();
    Follow([], Start(), DoNew(0, 5), Fresh(0));
    Binds();
    Follow([] + [DoNew(0, 5)], Fresh(0), DoBind(0, 0, 80, false), Fresh(80));
    Listens80();
    Follow([] + [DoNew(0, 5)] + [DoBind(0, 0, 80, false)], Fresh(80), DoListen(0), Server(map[5 := TcpClosed], []));
  }

  /** A connection arrives, is established and is reset by the peer. */
  function Arriving(): seq<NetOp> {
    Listening() + [DoIncoming(80, 9, 6)] + [TcpMoves(6, SynReceived)] + [TcpMoves(6, Established)]
    + [TcpMoves(6, TcpClosed)]
  }

  lemma ConnectionIsReset() returns (l: map<Handle, TcpState>)
    ensures 6 in l && l[6] == TcpClosed && Inv(Start()) && Inv(Server(l, [6]))
    ensures Run(Start(), Arriving()) == Some(Server(l, [6]))
  {
    hide Inv, Run, Start, Server, Leads, Listening;
    ServerListens();
    var a, l0 := Listening(), map[5 := TcpClosed];
    var l1 := l0[6 := TcpListen];
    var l2 := l1[6 := SynReceived];
    var l3 := l2[6 := Established];
    l := l3[6 := TcpClosed];
    Arrives(l0);
    Follow(a, Server(l0, []), DoIncoming(80, 9, 6), Server(l1, [6]));
    Changes(l1, SynReceived);
    Follow(a + [DoIncoming(80, 9, 6)], Server(l1, [6]), TcpMoves(6, SynReceived), Server(l2, [6]));
    Changes(l2, Established);
    Follow(a + [DoIncoming(80, 9, 6)] + [TcpMoves(6, SynReceived)],
           Server(l2, [6]), TcpMoves(6, Established), Server(l3, [6]));
    Changes(l3, TcpClosed);
    Follow(a + [DoIncoming(80, 9, 6)] + [TcpMoves(6, SynReceived)] + [TcpMoves(6, Established)],
           Server(l3, [6]), TcpMoves(6, TcpClosed), Server(l, [6]));
  }

  /** Accepting the reset connection takes handle 6 out of the queue. */
  lemma AcceptResets(l: map<Handle, TcpState>)
    requires 6 in l && l[6] == TcpClosed && Inv(Server(l, [6]))
    ensures 0 in Server(l, [6]).socks
    ensures var (w, r) := Accept(Server(l, [6]), 0, 1, 9);
            r == ConnectionReset && w.resets == 1 && Unheld(w, 6)
    ensures Leads(Server(l, [6]), DoAccept(0, 1, 9), Accept(Server(l, [6]), 0, 1, 9).0)
  {
    var w := Server(l, [6]);
    assert 6 in ConnectedOf(w);
    assert FirstConnected([6], ConnectedOf(w)) == 0;
    AcceptReset(w);
    hide Accept, Inv, NoEntries;
    ResetLosesHandle(w, 0, 1, 9);
  }

  lemma AcceptReset(w: World)
    requires Inv(w) && 0 in w.socks && w.socks[0].st == SS.Listening && w.socks[0].port == 80
    requires 80 < |w.table| && w.table[80] == Some(Entry(None, [6])) && 6 in w.live && w.live[6] == TcpClosed
    requires FirstConnected([6], ConnectedOf(w)) == 0
    ensures Accept(w, 0, 1, 9).1 == ConnectionReset && Accept(w, 0, 1, 9).0.resets == w.resets + 1
  {
  }

  /** After such a run handle 6 is live and unheld, and it stays so over every later run. */
  lemma HandleIsLost(later: seq<NetOp>) returns (w: World)
    ensures Inv(Start()) && Run(Start(), Arriving() + [DoAccept(0, 1, 9)]) == Some(w)
    ensures Inv(w) && Unheld(w, 6) && w.resets == 1
    ensures Run(w, later).Some? ==> Unheld(Run(w, later).value, 6)
  {
    hide Inv, Run, Start, Server, Leads, Arriving, Accept, Unheld;
    var l := ConnectionIsReset();
    AcceptResets(l);
    w := Accept(Server(l, [6]), 0, 1, 9).0;
    Follow(Arriving(), Server(l, [6]), DoAccept(0, 1, 9), w);
    if Run(w, later).Some? { UnheldForever(w, later, 6); }
  }
}
