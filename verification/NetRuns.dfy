/**
 Runs of the socket layer: any sequence of socket operations, arriving connections and TCP state
 changes made by the protocol stack.
 */
module NetRuns {
  import opened Base
  import opened Ordering
  import opened SynQueue
  import opened Ports
  import opened NetWorld
  import SS = SocketState

  datatype NetOp =
    | DoNew(id: nat, h: Handle)
    | DoBind(id: nat, addr: nat, port: nat, inUse: bool)
    | DoListen(id: nat)
    | DoConnect(id: nat, accepted: bool, addr: nat)
    | DoPoll(id: nat)
    | DoAccept(id: nat, newId: nat, addr: nat)
    | DoShutdown(id: nat)
    | DoDrop(id: nat)
    | DoIncoming(port: nat, addr: nat, h: Handle)
    | TcpMoves(h: Handle, to: TcpState)

  /** What the caller and the socket set provide: known objects, and new names and handles. */
  predicate Enabled(w: World, op: NetOp) {
    match op
    case DoNew(id, h) => id !in w.socks && h !in w.live
    case DoAccept(id, newId, _) => id in w.socks && newId !in w.socks
    case DoIncoming(_, _, h) => h !in w.live
    case TcpMoves(h, _) => h in w.live
    case _ => op.id in w.socks
  }

  ghost function Perform(w: World, op: NetOp): (World, Reply)
    requires Inv(w) && Enabled(w, op)
  {
    match op
    case DoNew(id, h) => (New(w, id, h), Ok)
    case DoBind(id, addr, port, inUse) => Bind(w, id, addr, port, inUse)
    case DoListen(id) => Listen(w, id)
    case DoConnect(id, accepted, addr) => Connect(w, id, accepted, addr)
    case DoPoll(id) => (PollConnect(w, id), Ok)
    case DoAccept(id, newId, addr) => Accept(w, id, newId, addr)
    case DoShutdown(id) => (Shutdown(w, id), Ok)
    case DoDrop(id) => (Drop(w, id), Ok)
    case DoIncoming(port, addr, h) => Incoming(w, port, addr, h)
    case TcpMoves(h, to) => (SetTcp(w, h, to), Ok)
  }

  ghost function Apply(w: World, op: NetOp): World
    requires Inv(w) && Enabled(w, op)
  {
    Perform(w, op).0
  }

  // ------------------------------------------------------------------ operations that move no handle

  lemma NewKeeps(w: World, id: nat, h: Handle)
    requires Inv(w) && id !in w.socks && h !in w.live
    ensures Inv(New(w, id, h))
  {
    NewOwned(w, id, h);
    hide Owned;
    OneSockChanges(w, New(w, id, h), id);
  }

  /** Only one object's state and address change, and it listens neither before nor after. */
  lemma SockKeeps(w: World, w': World, id: nat, s: Sock)
    requires Inv(w) && id in w.socks && s.handle == w.socks[id].handle
    requires w.socks[id].st != SS.Listening && s.st != SS.Listening
    requires w'.socks == w.socks[id := s] && w'.table == w.table && w'.resets == w.resets && InRange(w'.cursor)
    requires w'.live.Keys == w.live.Keys
    ensures Inv(w')
  {
    SameHolders(w, w');
    hide Owned;
    OneSockChanges(w, w', id);
  }

  lemma BindKeeps(w: World, id: nat, addr: nat, port: nat, inUse: bool)
    requires Inv(w) && Enabled(w, DoBind(id, addr, port, inUse))
    ensures Inv(Bind(w, id, addr, port, inUse).0)
  {
    var w' := Bind(w, id, addr, port, inUse).0;
    ScanFound(BusyPorts(w.table), w.cursor, 0);
    var s := w.socks[id];
    if s.st == SS.Closed {
      var s' := w'.socks[id];
      assert w.socks[id := s] == w.socks;
      hide Owned, Agrees, Scan;
      SockKeeps(w, w', id, s');
    }
  }

  lemma ConnectKeeps(w: World, id: nat, accepted: bool, addr: nat)
    requires Inv(w) && Enabled(w, DoConnect(id, accepted, addr))
    ensures Inv(Connect(w, id, accepted, addr).0)
  {
    var w' := Connect(w, id, accepted, addr).0;
    ScanFound(BusyPorts(w.table), w.cursor, 0);
    var s := w.socks[id];
    if s.st == SS.Closed {
      assert Holds(w, OfSock(id), s.handle);
      assert s.handle in w.live;
      assert w.socks[id := s] == w.socks;
      hide Owned, Agrees, Scan;
      assert w'.live.Keys == w.live.Keys;
      SockKeeps(w, w', id, w'.socks[id]);
    }
  }

  lemma PollKeeps(w: World, id: nat)
    requires Inv(w) && id in w.socks
    ensures Inv(PollConnect(w, id))
  {
    var w' := PollConnect(w, id);
    var s := w.socks[id];
    if s.st == SS.Connecting {
      assert w.socks[id := s] == w.socks;
      hide Owned;
      SockKeeps(w, w', id, w'.socks[id]);
    }
  }

  lemma IncomingKeeps(w: World, p: nat, dst: nat, h: Handle)
    requires Inv(w) && h !in w.live
    ensures Inv(Incoming(w, p, dst, h).0)
  {
    IncomingOwned(w, p, dst, h);
    var w' := Incoming(w, p, dst, h).0;
    hide Owned;
    forall i, q: nat ensures Listens(w', i, q) <==> Listens(w, i, q) {}
    hide Listens;
    SameListeners(w, w');
  }

  lemma TcpMovesKeeps(w: World, h: Handle, to: TcpState)
    requires Inv(w) && h in w.live
    ensures Inv(SetTcp(w, h, to))
  {
    var w' := SetTcp(w, h, to);
    assert w'.live.Keys == w.live.Keys;
    SameHolders(w, w');
    hide Owned;
    forall i, q: nat ensures Listens(w', i, q) <==> Listens(w, i, q) {}
    hide Listens;
    SameListeners(w, w');
  }

  // ------------------------------------------------------------------ every step, every run

  /** Ownership of handles and agreement of the listen table survive every operation. */
  lemma StepKeeps(w: World, op: NetOp)
    requires Inv(w) && Enabled(w, op)
    ensures Inv(Apply(w, op))
  {
    hide Owned, Agrees, New, Bind, Listen, Connect, PollConnect, Accept, Shutdown, Drop, Incoming, SetTcp;
    match op
    case DoNew(id, h) => NewKeeps(w, id, h);
    case DoBind(id, addr, port, inUse) => BindKeeps(w, id, addr, port, inUse);
    case DoListen(id) => ListenOwned(w, id); ListenAgrees(w, id);
    case DoConnect(id, accepted, addr) => ConnectKeeps(w, id, accepted, addr);
    case DoPoll(id) => PollKeeps(w, id);
    case DoAccept(id, newId, addr) => AcceptOwned(w, id, newId, addr); AcceptAgrees(w, id, newId, addr);
    case DoShutdown(id) => ShutdownOwned(w, id); ShutdownAgrees(w, id);
    case DoDrop(id) => DropOwned(w, id); DropAgrees(w, id);
    case DoIncoming(port, addr, h) => IncomingKeeps(w, port, addr, h);
    case TcpMoves(h, to) => TcpMovesKeeps(w, h, to);
  }

  function NoEntries(n: nat): (t: seq<Option<Entry>>)
    ensures |t| == n && forall p :: 0 <= p < n ==> t[p].None?
  {
    seq(n, _ => None)
  }

  function Start(): World {
    World(map[], NoEntries(PORT_NUM), map[], PORT_START, 0)
  }

  lemma {:induction false} NothingQueued(table: seq<Option<Entry>>)
    requires forall p :: 0 <= p < |table| ==> table[p].None?
    ensures Queued(table) == 0
    decreases |table|
  {
    if table != [] { NothingQueued(table[1..]); }
  }

  lemma StartOk()
    ensures Inv(Start())
  {
    EmptyOk(NoEntries(PORT_NUM));
  }

  lemma EmptyOk(table: seq<Option<Entry>>)
    requires |table| == PORT_NUM && forall p :: 0 <= p < |table| ==> table[p].None?
    ensures Inv(World(map[], table, map[], PORT_START, 0))
  {
    var w := World(map[], table, map[], PORT_START, 0);
    NothingQueued(table);
    assert forall o, h :: !Holds(w, o, h);
    assert forall id, p: nat :: !Listens(w, id, p);
    hide Queued, Holds, Listens;
  }

  /** The operation indexes the listen table out of bounds. */
  ghost predicate Stops(w: World, op: NetOp)
    requires Inv(w) && Enabled(w, op)
  {
    Perform(w, op).1 == Stopped
  }

  /**
   The world after `ops`, or None if one of them stops the program; operations that are not enabled
   when their turn comes are passed over.
   */
  ghost function Run(w: World, ops: seq<NetOp>): Option<World>
    requires Inv(w)
    decreases |ops|
  {
    if ops == [] then Some(w)
    else if !Enabled(w, ops[0]) then Run(w, ops[1..])
    else if Stops(w, ops[0]) then None
    else
      StepKeeps(w, ops[0]);
      Run(Apply(w, ops[0]), ops[1..])
  }

  /** In every reachable world: handles live and held once, the count, the bounds, and entries exactly for listeners. */
  lemma {:induction false} RunKeeps(w: World, ops: seq<NetOp>)
    requires Inv(w) && Run(w, ops).Some?
    ensures Owned(Run(w, ops).value) && Agrees(Run(w, ops).value)
    decreases |ops|
  {
    hide Owned, Agrees, Stops;
    if ops != [] {
      if Enabled(w, ops[0]) {
        StepKeeps(w, ops[0]);
        RunKeeps(Apply(w, ops[0]), ops[1..]);
      } else {
        RunKeeps(w, ops[1..]);
      }
    }
  }

  // ------------------------------------------------------------------ ports outside the table

  /** No port between the cursor and the end of the table is without an entry. */
  ghost predicate NoneFree(w: World) {
    forall p :: w.cursor <= p < |w.table| ==> w.table[p].Some?
  }

  /** The operation needs a port and none is free up to the table's end, or it comes with a port beyond the table. */
  ghost predicate BeyondTable(w: World, op: NetOp)
    requires Enabled(w, op)
  {
    match op
    case DoBind(id, _, port, _) => w.socks[id].st == SS.Closed && port == 0 && NoneFree(w)
    case DoConnect(id, _, _) => w.socks[id].st == SS.Closed && w.socks[id].port == 0 && NoneFree(w)
    case DoListen(id) =>
      && w.socks[id].st == SS.Closed
      && if w.socks[id].port == 0 then NoneFree(w) else w.socks[id].port >= PORT_NUM
    case DoIncoming(port, _, _) => port >= PORT_NUM
    case _ => false
  }

  lemma ScanLeavesIff(w: World)
    requires Agrees(w)
    ensures Scan(BusyPorts(w.table), w.cursor, 0).0.OutOfTable? <==> NoneFree(w)
    ensures !Scan(BusyPorts(w.table), w.cursor, 0).0.AddrInUse?
  {
    var busy := BusyPorts(w.table);
    ScanInShortTable(busy, w.cursor);
    assert forall p :: 0 <= p < PORT_NUM ==> busy[p] == w.table[p].Some?;
    hide Scan;
  }

  /** Exactly when an operation stops the program. */
  lemma StopsIff(w: World, op: NetOp)
    requires Inv(w) && Enabled(w, op)
    ensures Stops(w, op) <==> BeyondTable(w, op)
  {
    ScanLeavesIff(w);
    ScanFound(BusyPorts(w.table), w.cursor, 0);
    if op.DoAccept? { AcceptReplies(w, op.id, op.newId, op.addr); }
    hide Scan, Accept, NoneFree, Owned, PollConnect, Shutdown, Drop;
  }

  lemma AcceptReplies(w: World, id: nat, newId: nat, addr: nat)
    requires Inv(w) && id in w.socks
    ensures Accept(w, id, newId, addr).1 != Stopped
  {
  }

  /** A first packet for port 0x2000 stops the program in every reachable world. */
  lemma PacketBeyondTable(w: World, dst: nat, h: Handle)
    requires Inv(w) && h !in w.live
    ensures Stops(w, DoIncoming(0x2000, dst, h)) && Run(w, [DoIncoming(0x2000, dst, h)]) == None
  {
    StopsIff(w, DoIncoming(0x2000, dst, h));
  }

  // ------------------------------------------------------------------ no dead handle is touched

  /** The handles an operation looks up in the socket set or removes from it. */
  ghost function Touched(w: World, op: NetOp): set<Handle>
    requires Inv(w) && Enabled(w, op)
  {
    match op
    case DoBind(id, _, _, _) => if w.socks[id].st == SS.Closed then {w.socks[id].handle} else {}
    case DoConnect(id, _, _) => if w.socks[id].st == SS.Closed then {w.socks[id].handle} else {}
    case DoPoll(id) => {w.socks[id].handle}
    case DoAccept(id, _, _) => if w.socks[id].st == SS.Listening then QueueOf(w, w.socks[id].port) else {}
    case DoShutdown(id) => Closing(w, id)
    case DoDrop(id) => Closing(w, id) + {w.socks[id].handle}
    case _ => {}
  }

  function QueueOf(w: World, p: nat): set<Handle> {
    if p < |w.table| && w.table[p].Some? then Elements(w.table[p].value.queue) else {}
  }

  function Closing(w: World, id: nat): set<Handle>
    requires id in w.socks
  {
    if w.socks[id].st == SS.Connected then {w.socks[id].handle}
    else if w.socks[id].st == SS.Listening then QueueOf(w, w.socks[id].port)
    else {}
  }

  lemma TouchedLive(w: World, ops: seq<NetOp>, op: NetOp)
    requires Inv(w) && Run(w, ops).Some? && Enabled(Run(w, ops).value, op)
    ensures var w' := Run(w, ops).value; Inv(w') && Touched(w', op) <= w'.live.Keys
  {
    RunKeeps(w, ops);
    hide Run;
    TouchedNow(Run(w, ops).value, op);
  }

  lemma TouchedNow(w: World, op: NetOp)
    requires Inv(w) && Enabled(w, op)
    ensures Touched(w, op) <= w.live.Keys
  {
    forall id | id in w.socks
      ensures w.socks[id].handle in w.live
      ensures QueueOf(w, w.socks[id].port) <= w.live.Keys
    {
      assert Holds(w, OfSock(id), w.socks[id].handle);
      var p := w.socks[id].port;
      if p < |w.table| && w.table[p].Some? { QueueHandles(w, p); }
    }
    hide Inv, Owned, Agrees, QueueOf, Enabled;
  }

  /** Dropping a listener removes its own handle and its queue's: no handle twice. */
  lemma RemovedOnce(w: World, id: nat)
    requires Inv(w) && id in w.socks && w.socks[id].st == SS.Listening
    ensures w.socks[id].handle !in QueueOf(w, w.socks[id].port)
    ensures Drop(w, id).live.Keys == w.live.Keys - QueueOf(w, w.socks[id].port) - {w.socks[id].handle}
  {
    var h, p := w.socks[id].handle, w.socks[id].port;
    assert Listens(w, id, p) && Holds(w, OfSock(id), h);
    var q := w.table[p].value.queue;
    forall i | 0 <= i < |q| ensures q[i] != h { assert Holds(w, OfQueue(p, i), q[i]); }
  }

  // ------------------------------------------------------------------ who can end a listener

  /** An entry goes away only when its own listener is shut down or dropped: never by closing an accepted connection. */
  lemma EntryEndsWithListener(w: World, op: NetOp, p: nat)
    requires Inv(w) && Enabled(w, op) && p < PORT_NUM && w.table[p].Some?
    ensures |Apply(w, op).table| == PORT_NUM
    ensures Apply(w, op).table[p].None? <==> (op.DoShutdown? || op.DoDrop?) && Listens(w, op.id, p)
  {
    match op
    case DoShutdown(id) => ShutdownEntry(w, id, p);
    case DoDrop(id) => ShutdownEntry(w, id, p);
    case DoAccept(id, newId, addr) => AcceptIs(w, id, newId, addr); hide Accept;
    case DoListen(id) => ListenIs(w, id); hide Listen;
    case DoIncoming(_, _, _) =>
    case _ =>
  }

  lemma ShutdownEntry(w: World, id: nat, p: nat)
    requires Inv(w) && id in w.socks && p < PORT_NUM && w.table[p].Some?
    ensures |Shutdown(w, id).table| == PORT_NUM
    ensures Shutdown(w, id).table[p].None? <==> Listens(w, id, p)
  {
    ShutdownAgrees(w, id);
    if w.socks[id].st == SS.Listening { assert Listens(w, id, w.socks[id].port); }
  }

  // ------------------------------------------------------------------ states and local ports of sockets

  /** Between operations a socket's state follows the edges of the protocol; new ones are closed or accepted. */
  lemma StepFollowsEdges(w: World, op: NetOp, id: nat)
    requires Inv(w) && Enabled(w, op) && id in Apply(w, op).socks
    ensures var st' := Apply(w, op).socks[id].st;
            if id in w.socks then st' == w.socks[id].st || SS.Edge(w.socks[id].st, st')
            else (op.DoNew? && st' == SS.Closed) || (op.DoAccept? && st' == SS.Connected)
  {
    match op
    case DoAccept(i, newId, addr) => AcceptIs(w, i, newId, addr); hide Accept;
    case DoListen(i) => ListenIs(w, i); hide Listen;
    case DoShutdown(i) => ShutdownStates(w, i);
    case DoDrop(i) => ShutdownStates(w, i); hide Shutdown;
    case _ =>
  }

  /** Shutting down closes a connected or listening socket and leaves every other one alone. */
  lemma ShutdownStates(w: World, id: nat)
    requires Inv(w) && id in w.socks
    ensures var s := w.socks[id];
            var closes := s.st == SS.Connected || s.st == SS.Listening;
            var s' := if closes then s.(st := SS.Closed, addr := 0, port := 0) else s;
            Shutdown(w, id).socks == w.socks[id := s']
  {
    assert w.socks[id := w.socks[id]] == w.socks;
  }

  /** A socket that is connecting, connected or listening has a local port. */
  ghost predicate PortsSet(w: World) {
    forall id :: id in w.socks && w.socks[id].st != SS.Closed ==> w.socks[id].port != 0
  }

  lemma StepKeepsPorts(w: World, op: NetOp)
    requires Inv(w) && PortsSet(w) && Enabled(w, op)
    ensures PortsSet(Apply(w, op))
  {
    match op
    case DoAccept(i, newId, addr) => AcceptIs(w, i, newId, addr); hide Accept, Owned, Agrees;
    case DoListen(i) => ListenPort(w, i); ListenIs(w, i); hide Listen, Owned, Agrees;
    case DoShutdown(i) => ShutdownStates(w, i); hide Shutdown, Owned, Agrees;
    case DoDrop(i) => ShutdownStates(w, i); hide Shutdown, Owned, Agrees;
    case DoConnect(i, accepted, addr) => ConnectPorts(w, i, accepted, addr); hide Connect, Owned, Agrees;
    case DoBind(_, _, _, _) => hide Owned, Agrees, Scan;
    case _ => hide Owned, Agrees;
  }

  lemma ConnectPorts(w: World, id: nat, accepted: bool, addr: nat)
    requires Inv(w) && PortsSet(w) && Enabled(w, DoConnect(id, accepted, addr))
    ensures PortsSet(Connect(w, id, accepted, addr).0)
  {
    ScanFound(BusyPorts(w.table), w.cursor, 0);
    hide Owned, Scan;
  }

  lemma ListenPort(w: World, id: nat)
    requires Inv(w) && id in w.socks
    ensures var w' := Listen(w, id).0;
            id in w'.socks && (w.socks[id].st == SS.Closed && w'.socks[id].st != SS.Closed ==> w'.socks[id].port != 0)
  {
    ScanFound(BusyPorts(w.table), w.cursor, 0);
    hide Owned, Scan;
  }

  /** Whenever the code reads the local address of a listening or connected socket, it has been set. */
  lemma {:induction false} RunKeepsPorts(w: World, ops: seq<NetOp>)
    requires Inv(w) && PortsSet(w) && Run(w, ops).Some?
    ensures PortsSet(Run(w, ops).value)
    decreases |ops|
  {
    hide Owned, Agrees, PortsSet, Stops;
    if ops != [] {
      if Enabled(w, ops[0]) {
        StepKeeps(w, ops[0]);
        StepKeepsPorts(w, ops[0]);
        RunKeepsPorts(Apply(w, ops[0]), ops[1..]);
      } else {
        RunKeepsPorts(w, ops[1..]);
      }
    }
  }

  // ------------------------------------------------------------------ what accept takes

  /** A live connection whose handshake is over. */
  predicate Past(w: World, h: Handle) {
    h in w.live && w.live[h] != TcpListen && w.live[h] != SynReceived
  }

  /** The handle at `i` is past its handshake and none before it is. */
  ghost predicate FirstPast(w: World, q: seq<Handle>, i: nat) {
    i < |q| && Past(w, q[i]) && forall j :: 0 <= j < i ==> !Past(w, q[j])
  }

  /**
   Accepting on a listener blocks exactly when every queued connection is in LISTEN or SYN-RECEIVED.
   Otherwise it takes the first one that is not, reports a reset exactly if that one is closed, and gives
   it to the new socket if it is not.
   */
  lemma AcceptTakes(w: World, id: nat, newId: nat, addr: nat) returns (i: nat)
    requires Inv(w) && id in w.socks && newId !in w.socks && w.socks[id].st == SS.Listening
    ensures var p := w.socks[id].port;
            && p < |w.table| && w.table[p].Some?
            && var q := w.table[p].value.queue;
            && var (w', r) := Accept(w, id, newId, addr);
            && (r == WouldBlock <==>
                  forall h :: h in q ==> h in w.live && (w.live[h] == TcpListen || w.live[h] == SynReceived))
            && (r == WouldBlock ==> w' == w)
            && (r != WouldBlock ==>
                  && FirstPast(w, q, i) && |w'.table| == |w.table| && w'.table[p].Some?
                  && (r == ConnectionReset <==> w.live[q[i]] == TcpClosed) && (r == Ok || r == ConnectionReset)
                  && w'.socks == (if r == Ok then w.socks[newId := Sock(SS.Connected, q[i], addr, p)] else w.socks)
                  && |w'.table[p].value.queue| + 1 == |q| && w'.table[p].value.addr == w.table[p].value.addr
                  && (forall j :: 0 <= j < |q| - 1 ==>
                        w'.table[p].value.queue[j] == if j + 1 == i then q[0] else q[j + 1])
                  && (forall j :: 0 <= j < |w.table| && j != p ==> w'.table[j] == w.table[j])
                  && w'.live == w.live)
  {
    var p := w.socks[id].port;
    assert Listens(w, id, p);
    var q := w.table[p].value.queue;
    QueueHandles(w, p);
    i := FirstConnected(q, ConnectedOf(w));
    forall h | h in q ensures h in w.live && (h in ConnectedOf(w) <==> Past(w, h)) { assert h in Elements(q); }
    hide Owned, Agrees;
    var (w', r) := Accept(w, id, newId, addr);
    if i < |q| {
      assert FirstPast(w, q, i);
      forall j | 0 <= j < |q| - 1 ensures w'.table[p].value.queue[j] == if j + 1 == i then q[0] else q[j + 1] {
        SwapRemoveAt(q, i, j);
      }
    } else {
      forall h | h in q ensures !Past(w, h) {}
    }
  }

  // ------------------------------------------------------------------ bounded waiting

  /** Handle `h` is at index `j` of port `p`'s queue and its handshake is over. */
  ghost predicate Waits(w: World, p: nat, j: nat, h: Handle) {
    && p < |w.table| && w.table[p].Some? && j < |w.table[p].value.queue| && w.table[p].value.queue[j] == h
    && Past(w, h)
  }

  ghost predicate AcceptsOn(w: World, op: NetOp, p: nat) {
    op.DoAccept? && Listens(w, op.id, p)
  }

  /** The operation is an accept on `p`, and `h` is the first of its queue whose handshake is over. */
  ghost predicate HandsOut(w: World, op: NetOp, p: nat, h: Handle) {
    && AcceptsOn(w, op, p) && p < |w.table| && w.table[p].Some?
    && exists i: nat :: FirstPast(w, w.table[p].value.queue, i) && w.table[p].value.queue[i] == h
  }

  /** The operation neither ends the listener of `p` nor takes `h` back to a state before the handshake is over. */
  ghost predicate Calm(w: World, op: NetOp, p: nat, h: Handle) {
    && !((op.DoShutdown? || op.DoDrop?) && Listens(w, op.id, p))
    && !(op.TcpMoves? && op.h == h && (op.to == TcpListen || op.to == SynReceived))
  }

  /** An accept takes the handle or brings it one place forward, although it moves the front handle back. */
  lemma AcceptForward(w: World, id: nat, newId: nat, addr: nat, p: nat, j: nat, h: Handle)
    requires Inv(w) && id in w.socks && newId !in w.socks && Waits(w, p, j, h) && Listens(w, id, p)
    ensures HandsOut(w, DoAccept(id, newId, addr), p, h) || (j > 0 && Waits(Accept(w, id, newId, addr).0, p, j - 1, h))
  {
    var q := w.table[p].value.queue;
    var i := AcceptTakes(w, id, newId, addr);
    assert h in q;
    hide Accept, Inv;
    assert i <= j;
    if i == j {
      assert HandsOut(w, DoAccept(id, newId, addr), p, h);
    }
  }

  /** No other operation touches the place of a waiting handle. */
  lemma OthersStay(w: World, op: NetOp, p: nat, j: nat, h: Handle)
    requires Inv(w) && Enabled(w, op) && Waits(w, p, j, h) && Calm(w, op, p, h) && !AcceptsOn(w, op, p)
    ensures Waits(Apply(w, op), p, j, h)
  {
    assert Holds(w, OfQueue(p, j), h) && h in w.live;
    forall id | id in w.socks ensures w.socks[id].handle != h { assert Holds(w, OfSock(id), w.socks[id].handle); }
    match op
    case DoAccept(id, newId, addr) => AcceptElsewhere(w, id, newId, addr, p, j, h); hide Accept;
    case DoListen(id) => ListenElsewhere(w, id, p, j, h); hide Listen;
    case DoShutdown(id) => ShutdownStays(w, id, p, j, h); hide Shutdown;
    case DoDrop(id) => ShutdownStays(w, id, p, j, h); hide Shutdown;
    case _ => hide Inv;
  }

  lemma AcceptElsewhere(w: World, id: nat, newId: nat, addr: nat, p: nat, j: nat, h: Handle)
    requires Inv(w) && id in w.socks && newId !in w.socks && Waits(w, p, j, h) && !Listens(w, id, p)
    ensures Waits(Accept(w, id, newId, addr).0, p, j, h)
  {
    AcceptIs(w, id, newId, addr);
    hide Accept, Owned;
  }

  lemma ListenElsewhere(w: World, id: nat, p: nat, j: nat, h: Handle)
    requires Inv(w) && id in w.socks && Waits(w, p, j, h)
    ensures Waits(Listen(w, id).0, p, j, h)
  {
    ListenIs(w, id);
    hide Listen, Owned;
  }

  lemma ShutdownStays(w: World, id: nat, p: nat, j: nat, h: Handle)
    requires Inv(w) && id in w.socks && Waits(w, p, j, h) && !Listens(w, id, p)
    ensures Waits(Shutdown(w, id), p, j, h)
  {
    assert Holds(w, OfQueue(p, j), h) && Holds(w, OfSock(id), w.socks[id].handle);
    if w.socks[id].st == SS.Listening {
      var p' := w.socks[id].port;
      assert Listens(w, id, p') && p' != p;
      var q := w.table[p'].value.queue;
      forall i | 0 <= i < |q| ensures q[i] != h { assert Holds(w, OfQueue(p', i), q[i]); }
    }
  }

  /** Number of accepts on `p` that a run performs. */
  ghost function AcceptCount(w: World, ops: seq<NetOp>, p: nat): nat
    requires Inv(w)
    decreases |ops|
  {
    if ops == [] then 0
    else if !Enabled(w, ops[0]) then AcceptCount(w, ops[1..], p)
    else if Stops(w, ops[0]) then 0
    else
      StepKeeps(w, ops[0]);
      (if AcceptsOn(w, ops[0], p) then 1 else 0) + AcceptCount(Apply(w, ops[0]), ops[1..], p)
  }

  ghost predicate CalmRun(w: World, ops: seq<NetOp>, p: nat, h: Handle)
    requires Inv(w)
    decreases |ops|
  {
    ops == [] ||
    if !Enabled(w, ops[0]) then CalmRun(w, ops[1..], p, h)
    else if Stops(w, ops[0]) then true
    else
      StepKeeps(w, ops[0]);
      Calm(w, ops[0], p, h) && CalmRun(Apply(w, ops[0]), ops[1..], p, h)
  }

  /** Some accept of the run takes `h`. */
  ghost predicate HandedOut(w: World, ops: seq<NetOp>, p: nat, h: Handle)
    requires Inv(w)
    decreases |ops|
  {
    ops != [] &&
    if !Enabled(w, ops[0]) then HandedOut(w, ops[1..], p, h)
    else if Stops(w, ops[0]) then false
    else
      StepKeeps(w, ops[0]);
      HandsOut(w, ops[0], p, h) || HandedOut(Apply(w, ops[0]), ops[1..], p, h)
  }

  /** An established connection at index `j` is accepted within `j + 1` accepts, whatever else happens in between. */
  lemma {:induction false} BoundedWaiting(w: World, ops: seq<NetOp>, p: nat, j: nat, h: Handle)
    requires Inv(w) && Waits(w, p, j, h) && CalmRun(w, ops, p, h) && AcceptCount(w, ops, p) > j
    ensures HandedOut(w, ops, p, h)
    decreases |ops|
  {
    var op := ops[0];
    if !Enabled(w, op) {
      BoundedWaiting(w, ops[1..], p, j, h);
    } else {
      StepKeeps(w, op);
      hide Stops;
      if !AcceptsOn(w, op, p) {
        OthersStay(w, op, p, j, h);
        hide Inv, Waits, Calm, Enabled, HandsOut;
        BoundedWaiting(Apply(w, op), ops[1..], p, j, h);
      } else {
        AcceptForward(w, op.id, op.newId, op.addr, p, j, h);
        hide Inv, Waits, Calm, HandsOut, Accept;
        if !HandsOut(w, op, p, h) {
          BoundedWaiting(Apply(w, op), ops[1..], p, j - 1, h);
        }
      }
    }
  }
}
