/**
 What each operation of the socket layer replies and changes, told from its inputs: the state of the
 socket, the table, the cursor and the arguments.
 */
module NetReplies {
  import opened Base
  import opened Ordering
  import opened SynQueue
  import opened Ports
  import opened NetWorld
  import opened NetRuns
  import SS = SocketState

  /** Port `p` is the first one from the cursor on that has no entry. */
  predicate FirstFree(w: World, p: nat) {
    w.cursor <= p < 0x2000 && |w.table| == 0x2000 && w.table[p].None?
    && forall q :: w.cursor <= q < p ==> w.table[q].Some?
  }

  /** No port from the cursor to the table's end is without an entry. */
  predicate NoneLeft(w: World) {
    |w.table| == 0x2000 && forall q :: w.cursor <= q < 0x2000 ==> w.table[q].Some?
  }

  lemma ScanGives(w: World)
    requires Agrees(w)
    ensures var (got, cursor) := Scan(BusyPorts(w.table), w.cursor, 0);
            && 0x1000 <= w.cursor <= 0xffff && 0x1000 <= cursor <= 0xffff
            && (got.Found? || got.OutOfTable?)
            && (got.OutOfTable? <==> NoneLeft(w))
            && (got.Found? ==> FirstFree(w, got.port) && cursor == got.port + 1)
  {
    var busy := BusyPorts(w.table);
    ScanLeavesIff(w);
    ScanFound(busy, w.cursor, 0);
    ScanInShortTable(busy, w.cursor);
    ScanMoves(busy, w.cursor, 0);
    assert forall p :: 0 <= p < 0x2000 ==> busy[p] == w.table[p].Some?;
    hide Scan;
  }

  lemma {:induction false} ScanMoves(busy: seq<bool>, cur: nat, tries: nat)
    requires tries <= RANGE && |busy| == PORT_NUM
    ensures var (r, cur') := Scan(busy, cur, tries); r.Found? ==> r.port < PORT_NUM && cur' == r.port + 1
    decreases RANGE - tries
  {
    if tries < RANGE && cur < |busy| && busy[cur] { ScanMoves(busy, After(cur), tries + 1); }
  }

  // ------------------------------------------------------------------ sockets

  /**
   Bind: refused as invalid unless the socket is closed and unbound; with port 0 the first free port from
   the cursor on is used, and the program stops if there is none; the address is kept even if it is in use.
   */
  lemma BindReplies(w: World, id: nat, addr: nat, port: nat, inUse: bool)
    requires Inv(w) && id in w.socks
    ensures var s := w.socks[id];
            var (w', r) := Bind(w, id, addr, port, inUse);
            && w'.live == w.live && w'.table == w.table && w'.resets == w.resets
            && (port != 0 || s.st != SS.Closed ==> w'.cursor == w.cursor)
            && (r == Stopped <==> s.st == SS.Closed && port == 0 && NoneLeft(w))
            && (r == InvalidInput <==> s.st != SS.Closed || (r != Stopped && (s.addr != 0 || s.port != 0)))
            && (r == Ok || r == Refused <==> s.st == SS.Closed && s.addr == 0 && s.port == 0 && r != Stopped)
            && (r == Ok ==> !inUse) && (r == Refused ==> inUse)
            && (r == Ok || r == Refused ==>
                  && id in w'.socks && w'.socks == w.socks[id := s.(addr := addr, port := w'.socks[id].port)]
                  && (if port != 0 then w'.socks[id].port == port else FirstFree(w, w'.socks[id].port)))
            && (r == InvalidInput || r == Stopped ==> w'.socks == w.socks)
  {
    ScanGives(w);
    hide Owned, Agrees, Scan, FirstFree, NoneLeft;
  }

  /**
   Listen: nothing happens to a socket that is not closed.  Otherwise its port, or the first free one, gets
   an entry with the socket's address and an empty queue, unless it has one or lies beyond the table.
   */
  lemma ListenReplies(w: World, id: nat)
    requires Inv(w) && id in w.socks
    ensures var s := w.socks[id];
            var (w', r) := Listen(w, id);
            && w'.live == w.live && w'.resets == w.resets
            && (s.st != SS.Closed ==> r == Ok && w' == w)
            && (s.st == SS.Closed && s.port != 0 ==>
                  r == if s.port >= 0x2000 then Stopped else if w.table[s.port].Some? then Refused else Ok)
            && (s.st == SS.Closed && s.port == 0 ==> r == if NoneLeft(w) then Stopped else Ok)
            && (s.st == SS.Closed && r == Ok ==>
                  && id in w'.socks
                  && var p := w'.socks[id].port;
                  && p < 0x2000 && |w.table| == 0x2000 && (if s.port != 0 then p == s.port else FirstFree(w, p))
                  && w'.socks == w.socks[id := Sock(SS.Listening, s.handle, s.addr, p)]
                  && w'.table == w.table[p := Some(Entry(if s.addr != 0 then Some(s.addr) else None, []))])
            && (r == Refused ==> w' == w)
  {
    ScanGives(w);
    var s := w.socks[id];
    assert w.socks[id := s] == w.socks;
    hide Owned, Scan, NoneLeft;
    if s.port != 0 { hide FirstFree; }
  }

  /**
   Connect: refused unless the socket is closed and smoltcp takes the request; then it is connecting, its
   connection has sent a SYN, and its port is the bound one or the first free one.
   */
  lemma ConnectReplies(w: World, id: nat, accepted: bool, addr: nat)
    requires Inv(w) && id in w.socks
    ensures var s := w.socks[id];
            var (w', r) := Connect(w, id, accepted, addr);
            && w'.table == w.table && w'.resets == w.resets
            && (r == Stopped <==> s.st == SS.Closed && s.port == 0 && NoneLeft(w))
            && (r == Ok <==> s.st == SS.Closed && accepted && r != Stopped)
            && (r == Ok || r == Refused || r == Stopped)
            && (r == Ok ==>
                  && id in w'.socks
                  && var p := w'.socks[id].port;
                  && w'.socks == w.socks[id := Sock(SS.Connecting, s.handle, addr, p)]
                  && (if s.port != 0 then p == s.port else FirstFree(w, p))
                  && w'.live == w.live[s.handle := SynSent])
            && (r != Ok ==> w'.socks == w.socks && w'.live == w.live)
  {
    ScanGives(w);
    hide Owned, Agrees, Scan, FirstFree, NoneLeft;
  }

  /** Poll: a connecting socket waits in SYN-SENT, is connected when established, and else closed and unbound. */
  lemma PollChanges(w: World, id: nat)
    requires Inv(w) && id in w.socks
    ensures var s, w' := w.socks[id], PollConnect(w, id);
            && s.handle in w.live
            && (s.st != SS.Connecting || w.live[s.handle] == SynSent ==> w' == w)
            && (s.st == SS.Connecting && w.live[s.handle] == Established ==>
                  w' == w.(socks := w.socks[id := Sock(SS.Connected, s.handle, s.addr, s.port)]))
            && (s.st == SS.Connecting && w.live[s.handle] != SynSent && w.live[s.handle] != Established ==>
                  w' == w.(socks := w.socks[id := Sock(SS.Closed, s.handle, 0, 0)]))
  {
    assert Holds(w, OfSock(id), w.socks[id].handle);
    hide Agrees;
  }

  /** What closing does to a TCP state, as section 3.10.4 of RFC 9293 has it; before the handshake it just ends. */
  predicate Closes(a: TcpState, b: TcpState) {
    match a
    case TcpListen => b == TcpClosed
    case SynSent => b == TcpClosed
    case SynReceived => b == FinWait1
    case Established => b == FinWait1
    case CloseWait => b == LastAck
    case _ => b == a
  }

  /**
   Shutdown: a connected socket's connection is closed; a listener's entry goes, with the handles of its
   queue; either socket is closed and unbound; no other socket, entry or connection changes.
   */
  lemma ShutdownChanges(w: World, id: nat)
    requires Inv(w) && id in w.socks
    ensures var s, w' := w.socks[id], Shutdown(w, id);
            && s.handle in w.live && w'.cursor == w.cursor && w'.resets == w.resets
            && (s.st != SS.Connected && s.st != SS.Listening ==> w' == w)
            && (s.st == SS.Connected ==>
                  && w'.socks == w.socks[id := Sock(SS.Closed, s.handle, 0, 0)] && w'.table == w.table
                  && s.handle in w'.live && w'.live == w.live[s.handle := w'.live[s.handle]]
                  && Closes(w.live[s.handle], w'.live[s.handle]))
            && (s.st == SS.Listening ==>
                  && s.port < |w.table| && w.table[s.port].Some?
                  && w'.socks == w.socks[id := Sock(SS.Closed, s.handle, 0, 0)]
                  && w'.table == w.table[s.port := None]
                  && w'.live == w.live - Elements(w.table[s.port].value.queue))
  {
    assert Holds(w, OfSock(id), w.socks[id].handle);
    if w.socks[id].st == SS.Listening { assert Listens(w, id, w.socks[id].port); }
    hide Owned, Agrees;
  }

  lemma ForgetUpdate<K, V>(m: map<K, V>, k: K, v: V)
    ensures m[k := v] - {k} == m - {k}
  {
  }

  /** Drop: the object and its handle go; a listener takes its entry and the handles of its queue along. */
  lemma DropChanges(w: World, id: nat)
    requires Inv(w) && id in w.socks
    ensures var s, w' := w.socks[id], Drop(w, id);
            && w'.socks == w.socks - {id} && w'.cursor == w.cursor && w'.resets == w.resets
            && (s.st != SS.Listening ==> w'.table == w.table && w'.live == w.live - {s.handle})
            && (s.st == SS.Listening ==>
                  && s.port < |w.table| && w.table[s.port].Some? && w'.table == w.table[s.port := None]
                  && w'.live == w.live - Elements(w.table[s.port].value.queue) - {s.handle})
  {
    ShutdownChanges(w, id);
    var s, w1 := w.socks[id], Shutdown(w, id);
    hide Inv, Shutdown, Closes, Elements;
    if s.st == SS.Connected { ForgetUpdate(w.live, s.handle, w1.live[s.handle]); }
    if s.st == SS.Connected || s.st == SS.Listening { ForgetUpdate(w.socks, id, w1.socks[id]); }
  }

  // ------------------------------------------------------------------ packets

  /**
   A first packet joins the queue of its port exactly when the port has an entry that listens on every
   address or on this one and whose queue holds fewer than 32; otherwise it changes nothing.
   */
  lemma IncomingChanges(w: World, p: nat, dst: nat, h: Handle)
    requires Inv(w)
    ensures var (w', r) := Incoming(w, p, dst, h);
            && (r == Stopped <==> p >= 0x2000) && (r != Stopped ==> r == Ok)
            && (if p < 0x2000 && |w.table| == 0x2000 && w.table[p].Some?
                   && (w.table[p].value.addr == None || w.table[p].value.addr == Some(dst))
                   && |w.table[p].value.queue| < 32
                then w' == w.(live := w.live[h := TcpListen],
                              table := w.table[p := Some(Entry(w.table[p].value.addr, w.table[p].value.queue + [h]))])
                else w' == w)
  {
    hide Owned;
  }
}
