/**
 Sockets, the socket set and the listen table together.  Handles are shared between `TcpSocket`
 objects and SYN queues; ports are shared between listening objects and table entries.  Every
 operation keeps both kinds of sharing in order, over every sequential run.
 */
module NetWorld {
  import opened Base
  import opened Ordering
  import opened SynQueue
  import opened Ports
  import SS = SocketState

  /** TCP states, section 3.3.2 of RFC 9293. */
  datatype TcpState =
    | TcpClosed | TcpListen | SynSent | SynReceived | Established | FinWait1 | FinWait2
    | CloseWait | Closing | LastAck | TimeWait

  type St = SS.St

  /** A listen-table entry: the address it listens on, if any, and its SYN queue. */
  datatype Entry = Entry(addr: Option<nat>, queue: seq<Handle>)

  /** A `TcpSocket`; address and port 0 stand for the unspecified endpoint. */
  datatype Sock = Sock(st: St, handle: Handle, addr: nat, port: nat)

  datatype World = World(
    live: map<Handle, TcpState>,      // the socket set
    table: seq<Option<Entry>>,        // the listen table, by port
    socks: map<nat, Sock>,            // the TcpSocket objects
    cursor: nat,                      // of the ephemeral-port scan
    resets: nat)                      // accepts that returned ConnectionReset

  // ------------------------------------------------------------------ who holds a handle

  datatype Holder = OfSock(id: nat) | OfQueue(port: nat, index: nat)

  predicate Holds(w: World, o: Holder, h: Handle) {
    match o
    case OfSock(id) => id in w.socks && w.socks[id].handle == h
    case OfQueue(p, i) =>
      p < |w.table| && w.table[p].Some? && i < |w.table[p].value.queue| && w.table[p].value.queue[i] == h
  }

  function QueueLen(e: Option<Entry>): nat {
    if e.Some? then |e.value.queue| else 0
  }

  function Queued(table: seq<Option<Entry>>): nat
    decreases |table|
  {
    if table == [] then 0 else QueueLen(table[0]) + Queued(table[1..])
  }

  lemma {:induction false} QueuedUpdate(table: seq<Option<Entry>>, p: nat, e: Option<Entry>)
    requires p < |table|
    ensures Queued(table[p := e]) + QueueLen(table[p]) == Queued(table) + QueueLen(e)
    decreases |table|
  {
    var t' := table[p := e];
    if p == 0 {
      assert t'[1..] == table[1..];
    } else {
      assert t'[1..] == table[1..][p - 1 := e];
      QueuedUpdate(table[1..], p - 1, e);
    }
  }

  /** Every held handle is live and held once; nothing live is unaccounted for; queues are bounded. */
  ghost predicate Owned(w: World) {
    && (forall o, h :: Holds(w, o, h) ==> h in w.live)
    && (forall o, o', h :: Holds(w, o, h) && Holds(w, o', h) ==> o == o')
    && |w.live| == |w.socks| + Queued(w.table) + w.resets
    && (forall p :: 0 <= p < |w.table| ==> QueueLen(w.table[p]) <= LISTEN_QUEUE_SIZE)
  }

  predicate Listens(w: World, id: nat, p: nat) {
    id in w.socks && w.socks[id].st == SS.Listening && w.socks[id].port == p
  }

  /** A port has an entry exactly when one socket, and only one, listens on it. */
  ghost predicate Agrees(w: World) {
    && |w.table| == PORT_NUM && InRange(w.cursor)
    && (forall p :: 0 <= p < PORT_NUM ==> (w.table[p].Some? <==> exists id :: Listens(w, id, p)))
    && (forall id, p: nat :: Listens(w, id, p) ==> p < PORT_NUM)
    && (forall i, j, p: nat :: Listens(w, i, p) && Listens(w, j, p) ==> i == j)
  }

  ghost predicate Inv(w: World) {
    Owned(w) && Agrees(w)
  }

  // ------------------------------------------------------------------ small pieces

  function BusyPorts(table: seq<Option<Entry>>): (b: seq<bool>)
    ensures |b| == |table|
  {
    seq(|table|, i requires 0 <= i < |table| => table[i].Some?)
  }

  /** `bound_endpoint`: the bound port, or an ephemeral one; with the new cursor. */
  function BoundPort(w: World, s: Sock): (Outcome, nat) {
    if s.port != 0 then (Found(s.port), w.cursor) else Scan(BusyPorts(w.table), w.cursor, 0)
  }

  predicate IsConnected(w: World, h: Handle)
    requires h in w.live
  {
    w.live[h] != TcpListen && w.live[h] != SynReceived
  }

  function ConnectedOf(w: World): set<Handle> {
    set h | h in w.live && IsConnected(w, h)
  }

  /** smoltcp's `close`. */
  function CloseTcp(t: TcpState): TcpState {
    match t
    case TcpListen => TcpClosed
    case SynSent => TcpClosed
    case SynReceived => FinWait1
    case Established => FinWait1
    case CloseWait => LastAck
    case _ => t
  }

  function SetSock(w: World, id: nat, s: Sock): World {
    w.(socks := w.socks[id := s])
  }

  function SetTcp(w: World, h: Handle, t: TcpState): World {
    w.(live := w.live[h := t])
  }

  // ------------------------------------------------------------------ operations

  /** `Stopped`: the listen table was indexed out of bounds, which ends the program. */
  datatype Reply = Ok | Refused | WouldBlock | ConnectionReset | InvalidInput | Stopped

  /** `TcpSocket::new`; `h` is the handle the socket set hands out. */
  function New(w: World, id: nat, h: Handle): World {
    w.(live := w.live[h := TcpClosed], socks := w.socks[id := Sock(SS.Closed, h, 0, 0)])
  }

  /** `bind`; `inUse` is the verdict of `bind_check` when it is asked. */
  function Bind(w: World, id: nat, addr: nat, port: nat, inUse: bool): (World, Reply)
    requires id in w.socks
  {
    var s := w.socks[id];
    if s.st != SS.Closed then (w, InvalidInput)
    else
      var (got, cursor) := if port == 0 then Scan(BusyPorts(w.table), w.cursor, 0) else (Found(port), w.cursor);
      var w1 := w.(cursor := cursor);
      if got.OutOfTable? then (w1, Stopped)
      else if !got.Found? then (w1, Refused)
      else if s.addr != 0 || s.port != 0 then (w1, InvalidInput)
      else (SetSock(w1, id, s.(addr := addr, port := got.port)), if inUse then Refused else Ok)
  }

  /** The entry for a listener, with an empty queue. */
  function EntryFor(s: Sock): Entry {
    Entry(if s.addr != 0 then Some(s.addr) else None, [])
  }

  /** `listen`. */
  function Listen(w: World, id: nat): (World, Reply)
    requires id in w.socks
  {
    var s := w.socks[id];
    if s.st != SS.Closed then (w, Ok)
    else
      var (got, cursor) := BoundPort(w, s);
      var w1 := w.(cursor := cursor);
      if got.OutOfTable? then (w1, Stopped)
      else if !got.Found? then (w1, Refused)
      else
        var p := got.port;
        if p >= |w.table| then (SetSock(w1, id, s.(port := p)), Stopped)
        else if w.table[p].Some? then (SetSock(w1, id, s.(port := p)), Refused)
        else
          (SetSock(w1, id, s.(port := p, st := SS.Listening))
           .(table := w.table[p := Some(EntryFor(s))]), Ok)
  }

  /** `connect`; `accepted` says whether smoltcp takes the request, `addr` is the local address it picks. */
  function Connect(w: World, id: nat, accepted: bool, addr: nat): (World, Reply)
    requires id in w.socks
  {
    var s := w.socks[id];
    if s.st != SS.Closed then (w, Refused)
    else
      var (got, cursor) := BoundPort(w, s);
      var w1 := w.(cursor := cursor);
      if got.OutOfTable? then (w1, Stopped)
      else if !got.Found? || !accepted then (w1, Refused)
      else (SetTcp(SetSock(w1, id, s.(st := SS.Connecting, addr := addr, port := got.port)), s.handle, SynSent), Ok)
  }

  /** `poll_connect`. */
  function PollConnect(w: World, id: nat): World
    requires Inv(w) && id in w.socks
  {
    var s := w.socks[id];
    assert Holds(w, OfSock(id), s.handle);
    if s.st != SS.Connecting then w
    else
      match w.live[s.handle]
      case SynSent => w
      case Established => SetSock(w, id, s.(st := SS.Connected))
      case _ => SetSock(w, id, s.(st := SS.Closed, addr := 0, port := 0))
  }

  /** `accept`; `id'` names the new object, `addr` is the local address of the connection. */
  function Accept(w: World, id: nat, id': nat, addr: nat): (World, Reply)
    requires Inv(w) && id in w.socks
  {
    var s := w.socks[id];
    if s.st != SS.Listening then (w, InvalidInput)
    else
      assert Listens(w, id, s.port);
      var e := w.table[s.port].value;
      var i := FirstConnected(e.queue, ConnectedOf(w));
      if i == |e.queue| then (w, WouldBlock)
      else
        var h := e.queue[i];
        assert Holds(w, OfQueue(s.port, i), h);
        var w1 := w.(table := w.table[s.port := Some(e.(queue := SwapRemoveFront(e.queue, i)))]);
        if w.live[h] == TcpClosed then (w1.(resets := w.resets + 1), ConnectionReset)
        else (SetSock(w1, id', Sock(SS.Connected, h, addr, s.port)), Ok)
  }

  /** Dropping an entry removes the handles of its queue from the socket set. */
  function Unlisten(w: World, p: nat): World
    requires p < |w.table|
  {
    var gone := if w.table[p].Some? then Elements(w.table[p].value.queue) else {};
    w.(table := w.table[p := None], live := w.live - gone)
  }

  /** `shutdown`. */
  function Shutdown(w: World, id: nat): World
    requires Inv(w) && id in w.socks
  {
    var s := w.socks[id];
    assert Holds(w, OfSock(id), s.handle);
    if s.st == SS.Connected then
      SetTcp(SetSock(w, id, s.(st := SS.Closed, addr := 0, port := 0)), s.handle, CloseTcp(w.live[s.handle]))
    else if s.st == SS.Listening then
      assert Listens(w, id, s.port);
      Unlisten(SetSock(w, id, s.(st := SS.Closed, addr := 0, port := 0)), s.port)
    else w
  }

  /** Dropping a `TcpSocket`. */
  function Drop(w: World, id: nat): World
    requires Inv(w) && id in w.socks
  {
    var w1 := Shutdown(w, id);
    w1.(live := w1.live - {w.socks[id].handle}, socks := w1.socks - {id})
  }

  /** `incoming_tcp_packet` for the first packet of a connection; `h` is the handle the socket set hands out. */
  function Incoming(w: World, p: nat, dst: nat, h: Handle): (World, Reply) {
    if p >= |w.table| then (w, Stopped)
    else if w.table[p].None? then (w, Ok)
    else
      var e := w.table[p].value;
      if e.addr.Some? && e.addr.value != dst then (w, Ok)
      else if |e.queue| >= LISTEN_QUEUE_SIZE then (w, Ok)
      else (w.(live := w.live[h := TcpListen], table := w.table[p := Some(e.(queue := e.queue + [h]))]), Ok)
  }

  // ------------------------------------------------------------------ ownership, operation by operation

  /** Handles stay with the same holders when no handle and no queue changes. */
  lemma SameHolders(w: World, w': World)
    requires Owned(w) && w'.live.Keys == w.live.Keys && w'.table == w.table && w'.resets == w.resets
    requires w'.socks.Keys == w.socks.Keys && forall i :: i in w.socks ==> w'.socks[i].handle == w.socks[i].handle
    ensures Owned(w')
  {
    assert forall o, h :: Holds(w', o, h) <==> Holds(w, o, h);
    assert |w'.live| == |w'.live.Keys| && |w.live| == |w.live.Keys|;
    assert |w'.socks| == |w'.socks.Keys| && |w.socks| == |w.socks.Keys|;
  }

  lemma NewOwned(w: World, id: nat, h: Handle)
    requires Owned(w) && id !in w.socks && h !in w.live
    ensures Owned(New(w, id, h))
  {
    var w' := New(w, id, h);
    assert forall o, k :: Holds(w', o, k) ==> (o == OfSock(id) && k == h) || Holds(w, o, k);
    assert |w'.live| == |w.live| + 1 && |w'.socks| == |w.socks| + 1;
  }

  lemma IncomingOwned(w: World, p: nat, dst: nat, h: Handle)
    requires Owned(w) && h !in w.live
    ensures Owned(Incoming(w, p, dst, h).0)
  {
    var w' := Incoming(w, p, dst, h).0;
    if w' != w {
      var e := w.table[p].value;
      QueuedUpdate(w.table, p, w'.table[p]);
      assert w'.table[p].value.queue == e.queue + [h];
      assert forall o, k :: Holds(w', o, k) ==> (o == OfQueue(p, |e.queue|) && k == h) || Holds(w, o, k);
      assert |w'.live| == |w.live| + 1;
      assert |e.queue| < LISTEN_QUEUE_SIZE;
    }
  }

  /** Where a queue position was before `swap_remove_front(i)`. */
  function Before(i: nat, j: nat): nat {
    if j + 1 == i then 0 else j + 1
  }

  /** The world after handle `i` of port `p`'s queue has been taken out. */
  function Take(w: World, p: nat, i: nat): World
    requires p < |w.table| && w.table[p].Some? && i < |w.table[p].value.queue|
  {
    var e := w.table[p].value;
    w.(table := w.table[p := Some(e.(queue := SwapRemoveFront(e.queue, i)))])
  }

  /** Taking a handle out leaves every other holder with its handle, some at another position. */
  lemma TakeHolders(w: World, p: nat, i: nat, o: Holder, h: Handle)
    requires p < |w.table| && w.table[p].Some? && i < |w.table[p].value.queue|
    requires Holds(Take(w, p, i), o, h)
    ensures var o' := if o.OfQueue? && o.port == p then OfQueue(p, Before(i, o.index)) else o;
            Holds(w, o', h) && o' != OfQueue(p, i)
  {
  }

  lemma TakeOwned(w: World, p: nat, i: nat)
    requires Owned(w) && p < |w.table| && w.table[p].Some? && i < |w.table[p].value.queue|
    ensures var w', h := Take(w, p, i), w.table[p].value.queue[i];
            && h in w.live
            && (forall o, k :: Holds(w', o, k) ==> k in w.live && k != h)
            && (forall o, o', k :: Holds(w', o, k) && Holds(w', o', k) ==> o == o')
            && Queued(w'.table) + 1 == Queued(w.table)
            && (forall q :: 0 <= q < |w'.table| ==> QueueLen(w'.table[q]) <= LISTEN_QUEUE_SIZE)
  {
    var w', h := Take(w, p, i), w.table[p].value.queue[i];
    assert Holds(w, OfQueue(p, i), h);
    QueuedUpdate(w.table, p, w'.table[p]);
    forall o, k | Holds(w', o, k) ensures k in w.live && k != h {
      TakeHolders(w, p, i, o, k);
    }
    forall o, o', k | Holds(w', o, k) && Holds(w', o', k) ensures o == o' {
      TakeHolders(w, p, i, o, k);
      TakeHolders(w, p, i, o', k);
    }
  }

  lemma AcceptIs(w: World, id: nat, id': nat, addr: nat)
    requires Inv(w) && id in w.socks
    ensures var (w', r) := Accept(w, id, id', addr);
            if r == Ok || r == ConnectionReset then
              && w.socks[id].st == SS.Listening && w.socks[id].port < |w.table| && w.table[w.socks[id].port].Some?
              && var p := w.socks[id].port;
              && var q := w.table[p].value.queue;
              && var i := FirstConnected(q, ConnectedOf(w));
              && i < |q|
              && w' == if r == Ok then SetSock(Take(w, p, i), id', Sock(SS.Connected, q[i], addr, p))
                       else Take(w, p, i).(resets := w.resets + 1)
            else w' == w
  {
    if w.socks[id].st == SS.Listening { assert Listens(w, id, w.socks[id].port); }
  }

  lemma AcceptOwned(w: World, id: nat, id': nat, addr: nat)
    requires Inv(w) && id in w.socks && id' !in w.socks
    ensures Owned(Accept(w, id, id', addr).0)
  {
    AcceptIs(w, id, id', addr);
    var (w', r) := Accept(w, id, id', addr);
    if r == Ok || r == ConnectionReset {
      var p := w.socks[id].port;
      var i := FirstConnected(w.table[p].value.queue, ConnectedOf(w));
      hide Accept, FirstConnected, Agrees;
      TakeOwned(w, p, i);
      if r == Ok {
        TakenBySock(Take(w, p, i), id', w.table[p].value.queue[i], addr, p, w');
      } else {
        assert forall o, k :: Holds(w', o, k) <==> Holds(Take(w, p, i), o, k);
      }
    }
  }

  /** A handle out of every queue goes to a new object. */
  lemma TakenBySock(w1: World, id': nat, h: Handle, addr: nat, p: nat, w': World)
    requires w' == SetSock(w1, id', Sock(SS.Connected, h, addr, p)) && id' !in w1.socks && h in w1.live
    requires forall o, k :: Holds(w1, o, k) ==> k in w1.live && k != h
    requires forall o, o', k :: Holds(w1, o, k) && Holds(w1, o', k) ==> o == o'
    requires |w1.live| == |w1.socks| + Queued(w1.table) + 1 + w1.resets
    requires forall q :: 0 <= q < |w1.table| ==> QueueLen(w1.table[q]) <= LISTEN_QUEUE_SIZE
    ensures Owned(w')
  {
    assert forall o, k :: Holds(w', o, k) ==> (o == OfSock(id') && k == h) || Holds(w1, o, k);
    assert |w'.socks| == |w1.socks| + 1;
  }

  // ------------------------------------------------------------------ dropping an entry

  ghost predicate Distinct(q: seq<Handle>) {
    forall i, j :: 0 <= i < j < |q| ==> q[i] != q[j]
  }

  lemma {:induction false} DistinctCount(q: seq<Handle>)
    requires Distinct(q)
    ensures |Elements(q)| == |q|
    decreases |q|
  {
    if q != [] {
      var pre, x := q[..|q| - 1], q[|q| - 1];
      DistinctCount(pre);
      assert q == pre + [x] && x !in pre;
      assert Elements(q) == Elements(pre) + {x};
    }
  }

  lemma MinusCount<T>(m: map<Handle, T>, s: set<Handle>)
    requires s <= m.Keys
    ensures |m - s| + |s| == |m|
  {
    assert (m - s).Keys == m.Keys - s;
    assert |m.Keys - s| + |s| == |m.Keys|;
    assert |(m - s)| == |(m - s).Keys| && |m| == |m.Keys|;
  }

  /** The handles of one queue are live and different. */
  lemma QueueHandles(w: World, p: nat)
    requires Owned(w) && p < |w.table| && w.table[p].Some?
    ensures var q := w.table[p].value.queue; Distinct(q) && Elements(q) <= w.live.Keys
  {
    var q := w.table[p].value.queue;
    forall i | 0 <= i < |q| ensures q[i] in w.live { assert Holds(w, OfQueue(p, i), q[i]); }
    forall i, j | 0 <= i < j < |q| ensures q[i] != q[j] {
      assert Holds(w, OfQueue(p, i), q[i]) && Holds(w, OfQueue(p, j), q[j]);
    }
  }

  lemma UnlistenCount(w: World, p: nat)
    requires Owned(w) && p < |w.table|
    ensures var w' := Unlisten(w, p);
            |w'.live| + QueueLen(w.table[p]) == |w.live| && Queued(w'.table) + QueueLen(w.table[p]) == Queued(w.table)
  {
    QueuedUpdate(w.table, p, None);
    if w.table[p].Some? {
      QueueHandles(w, p);
      hide Owned;
      var q := w.table[p].value.queue;
      DistinctCount(q);
      MinusCount(w.live, Elements(q));
    } else {
      assert w.live - {} == w.live;
    }
  }

  lemma UnlistenHolders(w: World, p: nat, o: Holder, h: Handle)
    requires Owned(w) && p < |w.table| && Holds(Unlisten(w, p), o, h)
    ensures Holds(w, o, h) && h in Unlisten(w, p).live
  {
    if w.table[p].Some? { OutsideQueue(w, p, o, h); }
    assert Holds(w, o, h);
  }

  lemma UnlistenOwned(w: World, p: nat)
    requires Owned(w) && p < |w.table|
    ensures Owned(Unlisten(w, p))
  {
    var w' := Unlisten(w, p);
    UnlistenCount(w, p);
    forall o, h | Holds(w', o, h) ensures Holds(w, o, h) && h in w'.live { UnlistenHolders(w, p, o, h); }
    hide Holds, Queued;
  }

  lemma OutsideQueue(w: World, p: nat, o: Holder, h: Handle)
    requires Owned(w) && p < |w.table| && w.table[p].Some? && Holds(Unlisten(w, p), o, h)
    ensures Holds(w, o, h) && h !in w.table[p].value.queue
  {
    var q := w.table[p].value.queue;
    if h in q {
      var i :| 0 <= i < |q| && q[i] == h;
      assert Holds(w, OfQueue(p, i), h) && Holds(w, o, h);
      assert false;
    }
  }

  lemma ShutdownOwned(w: World, id: nat)
    requires Inv(w) && id in w.socks
    ensures Owned(Shutdown(w, id)) && Shutdown(w, id).socks.Keys == w.socks.Keys
    ensures Shutdown(w, id).socks[id].handle == w.socks[id].handle
  {
    var s := w.socks[id];
    assert Holds(w, OfSock(id), s.handle);
    var w1 := SetSock(w, id, s.(st := SS.Closed, addr := 0, port := 0));
    if s.st == SS.Connected {
      SameHolders(w, Shutdown(w, id));
    } else if s.st == SS.Listening {
      assert Listens(w, id, s.port);
      SameHolders(w, w1);
      UnlistenOwned(w1, s.port);
    }
  }

  lemma RemovedOwned(w: World, id: nat)
    requires Owned(w) && id in w.socks
    ensures w.socks[id].handle in w.live
    ensures Owned(w.(live := w.live - {w.socks[id].handle}, socks := w.socks - {id}))
  {
    var h := w.socks[id].handle;
    var w' := w.(live := w.live - {h}, socks := w.socks - {id});
    assert Holds(w, OfSock(id), h);
    assert forall o, k :: Holds(w', o, k) ==> Holds(w, o, k) && o != OfSock(id);
    MinusCount(w.live, {h});
    MinusCount(w.socks, {id});
  }

  lemma DropOwned(w: World, id: nat)
    requires Inv(w) && id in w.socks
    ensures Owned(Drop(w, id))
  {
    ShutdownOwned(w, id);
    hide Owned, Agrees;
    RemovedOwned(Shutdown(w, id), id);
  }

  /** A new entry has an empty queue: nobody's handle changes. */
  lemma EntryOwned(w: World, w': World, p: nat, e: Entry)
    requires Owned(w) && p < |w.table| && w.table[p].None? && e.queue == []
    requires w'.live == w.live && w'.resets == w.resets && w'.table == w.table[p := Some(e)]
    requires w'.socks.Keys == w.socks.Keys && forall i :: i in w.socks ==> w'.socks[i].handle == w.socks[i].handle
    ensures Owned(w')
  {
    QueuedUpdate(w.table, p, Some(e));
    assert forall o, h :: Holds(w', o, h) ==> Holds(w, o, h);
    assert |w'.socks| == |w'.socks.Keys| && |w.socks| == |w.socks.Keys|;
  }

  lemma ListenIs(w: World, id: nat)
    requires id in w.socks
    ensures var (w', r) := Listen(w, id);
            var s := w.socks[id];
            && w'.live == w.live && w'.resets == w.resets
            && (w'.table == w.table ==> w' == SetSock(w, id, s.(port := w'.socks[id].port)).(cursor := w'.cursor))
            && (w'.table != w.table ==>
                  && s.st == SS.Closed
                  && var p := w'.socks[id].port;
                  && p < |w.table| && w.table[p].None?
                  && w' == SetSock(w, id, s.(port := p, st := SS.Listening))
                           .(cursor := w'.cursor, table := w.table[p := Some(EntryFor(s))]))
  {
    var (w', r) := Listen(w, id);
    var s := w.socks[id];
    ScanFound(BusyPorts(w.table), w.cursor, 0);
    if s.st != SS.Closed || !BoundPort(w, s).0.Found? {
      assert w.socks[id := s] == w.socks;
    } else {
      var p := BoundPort(w, s).0.port;
      if p < |w.table| && w.table[p].None? { assert w'.table[p].Some?; }
    }
  }

  lemma ListenOwned(w: World, id: nat)
    requires Owned(w) && id in w.socks
    ensures Owned(Listen(w, id).0)
  {
    ListenIs(w, id);
    var (w', r) := Listen(w, id);
    hide Owned, Listen;
    if w'.table == w.table {
      SameHolders(w, w');
    } else {
      var p := w'.socks[id].port;
      EntryOwned(w, w', p, EntryFor(w.socks[id]));
    }
  }

  // ------------------------------------------------------------------ table and listeners, operation by operation

  /** Nobody starts or stops listening, and no entry comes or goes. */
  lemma SameListeners(w: World, w': World)
    requires Agrees(w) && |w'.table| == |w.table| && InRange(w'.cursor)
    requires forall p :: 0 <= p < |w.table| ==> (w'.table[p].Some? <==> w.table[p].Some?)
    requires forall id, p: nat :: Listens(w', id, p) <==> Listens(w, id, p)
    ensures Agrees(w')
  {
  }

  lemma OneSockChanges(w: World, w': World, id: nat)
    requires Agrees(w) && w'.table == w.table && InRange(w'.cursor)
    requires forall i :: i != id ==> (i in w'.socks <==> i in w.socks) && (i in w.socks ==> w'.socks[i] == w.socks[i])
    requires id in w.socks ==> w.socks[id].st != SS.Listening
    requires id in w'.socks ==> w'.socks[id].st != SS.Listening
    ensures Agrees(w')
  {
    forall i, p: nat ensures Listens(w', i, p) <==> Listens(w, i, p) {}
    hide Listens;
    SameListeners(w, w');
  }

  lemma ListenAgrees(w: World, id: nat)
    requires Agrees(w) && id in w.socks
    ensures Agrees(Listen(w, id).0)
  {
    ListenIs(w, id);
    ScanFound(BusyPorts(w.table), w.cursor, 0);
    var (w', r) := Listen(w, id);
    assert InRange(w'.cursor);
    hide Listen;
    if w'.table == w.table {
      if w.socks[id].st == SS.Listening {
        ListenTwice(w, id);
      } else {
        OneSockChanges(w, w', id);
      }
    } else {
      ListenerAdded(w, w', id, w'.socks[id].port);
    }
  }

  lemma ListenTwice(w: World, id: nat)
    requires id in w.socks && w.socks[id].st == SS.Listening
    ensures Listen(w, id).0 == w
  {
  }

  /** A closed socket starts to listen on a port without an entry. */
  lemma ListenerAdded(w: World, w': World, id: nat, p: nat)
    requires Agrees(w) && id in w.socks && w.socks[id].st == SS.Closed && p < |w.table| && w.table[p].None?
    requires InRange(w'.cursor) && w'.table == w.table[p := Some(EntryFor(w.socks[id]))]
    requires w'.socks == w.socks[id := w.socks[id].(port := p, st := SS.Listening)]
    ensures Agrees(w')
  {
    forall i, q: nat ensures Listens(w', i, q) <==> Listens(w, i, q) || (i == id && q == p) {}
    assert forall i :: !Listens(w, i, p);
    assert Listens(w', id, p);
    hide Listens;
    forall q | 0 <= q < PORT_NUM ensures w'.table[q].Some? <==> exists i :: Listens(w', i, q) {
      if q != p && w.table[q].Some? {
        var i :| Listens(w, i, q);
        assert Listens(w', i, q);
      }
    }
  }

  /** The only listener of a port stops, and the entry goes with it. */
  lemma ListenerRemoved(w: World, w': World, id: nat, p: nat)
    requires Agrees(w) && Listens(w, id, p) && p < |w.table|
    requires w'.cursor == w.cursor && w'.table == w.table[p := None]
    requires forall i :: i != id ==> (i in w'.socks <==> i in w.socks) && (i in w.socks ==> w'.socks[i] == w.socks[i])
    requires id in w'.socks && w'.socks[id].st != SS.Listening
    ensures Agrees(w')
  {
    forall i, q: nat ensures Listens(w', i, q) <==> Listens(w, i, q) && i != id {}
    hide Listens;
    forall q | 0 <= q < PORT_NUM ensures w'.table[q].Some? <==> exists i :: Listens(w', i, q) {
      if q == p {
        assert forall i :: Listens(w', i, p) ==> i == id;
      } else if w.table[q].Some? {
        var i :| Listens(w, i, q);
        assert i != id by { OnePort(w, id, p, q); }
        assert Listens(w', i, q);
      }
    }
  }

  lemma OnePort(w: World, id: nat, p: nat, q: nat)
    requires Listens(w, id, p) && p != q
    ensures !Listens(w, id, q)
  {
  }

  lemma ShutdownAgrees(w: World, id: nat)
    requires Inv(w) && id in w.socks
    ensures Agrees(Shutdown(w, id)) && Shutdown(w, id).socks[id].st != SS.Listening
  {
    var s := w.socks[id];
    var w' := Shutdown(w, id);
    if s.st == SS.Connected {
      hide Owned;
      OneSockChanges(w, w', id);
    } else if s.st == SS.Listening {
      assert Listens(w, id, s.port);
      hide Owned;
      ListenerRemoved(w, w', id, s.port);
    }
  }

  lemma DropAgrees(w: World, id: nat)
    requires Inv(w) && id in w.socks
    ensures Agrees(Drop(w, id))
  {
    ShutdownAgrees(w, id);
    ShutdownOwned(w, id);
    var w1 := Shutdown(w, id);
    hide Owned, Shutdown, Agrees;
    OneSockChanges(w1, Drop(w, id), id);
  }

  lemma AcceptAgrees(w: World, id: nat, id': nat, addr: nat)
    requires Inv(w) && id in w.socks && id' !in w.socks
    ensures Agrees(Accept(w, id, id', addr).0)
  {
    AcceptIs(w, id, id', addr);
    var (w', r) := Accept(w, id, id', addr);
    hide Accept, Owned, FirstConnected;
    if r == Ok || r == ConnectionReset {
      forall i, p: nat ensures Listens(w', i, p) <==> Listens(w, i, p) {}
      hide Listens;
      SameListeners(w, w');
    }
  }
}
