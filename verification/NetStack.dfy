/**
 The socket layer in place: the socket set, the array of listen-table entries and the socket objects
 are updated step by step.  Every method computes the operation of `NetWorld`, so what is proved
 there about runs holds here; looking up or removing a handle needs it to be live.
 */
module NetStack {
  import opened Base
  import opened Ordering
  import opened SynQueue
  import opened Ports
  import opened NetWorld
  import opened NetRuns
  import SS = SocketState

  /** A listener's port has an entry, and the handles of its queue are live. */
  lemma ListenerEntry(w: World, id: nat)
    requires Inv(w) && id in w.socks && w.socks[id].st == SS.Listening
    ensures var p := w.socks[id].port;
            p < |w.table| && w.table[p].Some? && forall h :: h in w.table[p].value.queue ==> h in w.live
  {
    var p := w.socks[id].port;
    assert Listens(w, id, p);
    QueueHandles(w, p);
    InElements(w.table[p].value.queue);
    hide Owned, Agrees;
  }

  class Stack {
    var live: map<Handle, TcpState>
    const tcp: array<Option<Entry>>
    var socks: map<nat, Sock>
    const ports: EphemeralPorts
    ghost var resets: nat

    ghost function View(): World
      reads this, tcp, ports
    {
      World(live, tcp[..], socks, ports.curr, resets)
    }

    constructor ()
      ensures fresh(tcp) && fresh(ports) && View() == Start() && Inv(View())
    {
      StartOk();
      live, socks, resets := map[], map[], 0;
      tcp := new Option<Entry>[PORT_NUM](_ => None);
      ports := new EphemeralPorts();
      new;
      assert tcp[..] == NoEntries(PORT_NUM);
    }

    // ---------------------------------------------------------------- the socket set

    method Add(h: Handle, t: TcpState)
      requires h !in live
      modifies this`live
      ensures live == old(live)[h := t]
    {
      live := live[h := t];
    }

    method Remove(h: Handle)
      requires h in live
      modifies this`live
      ensures live == old(live) - {h}
    {
      live := live - {h};
    }

    method SetState(h: Handle, t: TcpState)
      requires h in live
      modifies this`live
      ensures live == old(live)[h := t]
    {
      live := live[h := t];
    }

    // ---------------------------------------------------------------- the listen table

    /** A port that it finds is in the range and has no entry. */
    method GetEphemeralPort() returns (r: Outcome)
      requires InRange(ports.curr)
      modifies ports
      ensures InRange(ports.curr) && (r, ports.curr) == Scan(BusyPorts(tcp[..]), old(ports.curr), 0)
      ensures r.Found? ==> InRange(r.port) && r.port < tcp.Length && tcp[r.port].None?
    {
      ScanFound(BusyPorts(tcp[..]), ports.curr, 0);
      r := ports.Get(BusyPorts(tcp[..]));
    }

    method TableListen(p: nat, addr: Option<nat>) returns (r: Reply)
      requires 0 < p < tcp.Length
      modifies tcp
      ensures r == if old(tcp[p]).None? then Ok else Refused
      ensures tcp[..] == if r == Ok then old(tcp[..])[p := Some(Entry(addr, []))] else old(tcp[..])
    {
      if tcp[p].None? {
        tcp[p] := Some(Entry(addr, []));
        return Ok;
      }
      return Refused;
    }

    /** Dropping an entry: every handle of its queue leaves the socket set. */
    method RemoveAll(q: seq<Handle>)
      requires Distinct(q) && forall h :: h in q ==> h in live
      modifies this`live
      ensures live == old(live) - Elements(q)
    {
      for i := 0 to |q|
        invariant live == old(live) - Elements(q[..i])
      {
        assert Elements(q[..i + 1]) == Elements(q[..i]) + {q[i]};
        assert q[i] !in q[..i];
        Remove(q[i]);
      }
      assert q[..|q|] == q;
    }

    method Unlisten(p: nat)
      requires p < tcp.Length && Owned(View())
      modifies this`live, tcp
      ensures View() == NetWorld.Unlisten(old(View()), p)
    {
      ghost var w := View();
      var gone := tcp[p];
      tcp[p] := None;
      assert tcp[..] == w.table[p := None];
      if gone.Some? {
        QueueHandles(w, p);
        InElements(gone.value.queue);
        hide Owned;
        RemoveAll(gone.value.queue);
      } else {
        assert live == w.live - {};
      }
    }

    /** The first handle of a queue whose handshake is over. */
    method FirstReady(q: seq<Handle>) returns (idx: nat)
      requires forall h :: h in q ==> h in live
      ensures idx == FirstConnected(q, ConnectedOf(View())) && idx <= |q|
      ensures forall j :: 0 <= j < idx ==> live[q[j]] == TcpListen || live[q[j]] == SynReceived
      ensures idx < |q| ==> live[q[idx]] != TcpListen && live[q[idx]] != SynReceived
    {
      idx := 0;
      while idx < |q|
        invariant 0 <= idx <= |q|
        invariant forall j :: 0 <= j < idx ==> q[j] !in ConnectedOf(View())
        invariant forall j :: 0 <= j < idx ==> live[q[j]] == TcpListen || live[q[j]] == SynReceived
      {
        if live[q[idx]] != TcpListen && live[q[idx]] != SynReceived {
          assert q[idx] in ConnectedOf(View());
          return;
        }
        idx := idx + 1;
      }
    }

    /** Take the first ready handle out of the queue of `p`; the handle is live whatever the reply. */
    method TableAccept(p: nat) returns (r: Reply, h: Handle)
      requires p < tcp.Length && tcp[p].Some? && forall k :: k in tcp[p].value.queue ==> k in live
      modifies this`resets, tcp
      ensures var q := old(tcp[p]).value.queue;
              var i := FirstConnected(q, old(ConnectedOf(View())));
              if i == |q| then r == WouldBlock && tcp[..] == old(tcp[..]) && resets == old(resets)
              else
                && h == q[i] && r == (if live[h] == TcpClosed then ConnectionReset else Ok)
                && tcp[..] == old(tcp[..])[p := Some(old(tcp[p]).value.(queue := SwapRemoveFront(q, i)))]
                && resets == old(resets) + (if r == ConnectionReset then 1 else 0)
      ensures var q := old(tcp[p]).value.queue;
              && (r == WouldBlock <==> forall k :: k in q ==> live[k] == TcpListen || live[k] == SynReceived)
              && (r != WouldBlock ==> h in q && live[h] != TcpListen && live[h] != SynReceived)
    {
      var e := tcp[p].value;
      var i := FirstReady(e.queue);
      if i == |e.queue| {
        return WouldBlock, 0;
      }
      h := e.queue[i];
      tcp[p] := Some(e.(queue := SwapRemoveFront(e.queue, i)));
      if live[h] == TcpClosed {
        resets := resets + 1;
        return ConnectionReset, h;
      }
      return Ok, h;
    }

    /** A port beyond the table stops the program; a full queue or another address drops the packet. */
    method IncomingTcpPacket(p: nat, dst: nat, h: Handle) returns (r: Reply)
      requires Inv(View()) && Enabled(View(), DoIncoming(p, dst, h))
      modifies this`live, tcp
      ensures Inv(View()) && (View(), r) == Incoming(old(View()), p, dst, h)
      ensures r == Stopped <==> p >= PORT_NUM
      ensures forall k :: k in old(live) ==> k in live && live[k] == old(live)[k]
    {
      IncomingKeeps(View(), p, dst, h);
      hide Owned;
      if p >= tcp.Length {
        return Stopped;
      }
      if tcp[p].Some? {
        var e := tcp[p].value;
        if e.addr.Some? && e.addr.value != dst {
          return Ok;
        }
        if |e.queue| >= LISTEN_QUEUE_SIZE {
          return Ok;
        }
        Add(h, TcpListen);
        tcp[p] := Some(e.(queue := e.queue + [h]));
      }
      return Ok;
    }

    // ---------------------------------------------------------------- sockets

    /** Every socket but `id` is as it was. */
    twostate predicate OthersSame(id: nat)
      reads this
    {
      forall i :: i != id ==> (i in socks <==> i in old(socks)) && (i in socks ==> socks[i] == old(socks)[i])
    }

    /** A closed, unbound socket with a handle that no other socket has. */
    method NewSocket(id: nat, h: Handle)
      requires Inv(View()) && Enabled(View(), DoNew(id, h))
      modifies this
      ensures Inv(View()) && View() == New(old(View()), id, h)
      ensures socks == old(socks)[id := Sock(SS.Closed, h, 0, 0)] && live == old(live)[h := TcpClosed]
      ensures tcp[..] == old(tcp[..]) && OthersSame(id) && forall i :: i in socks && i != id ==> socks[i].handle != h
    {
      NewKeeps(View(), id, h);
      forall i | i in socks ensures socks[i].handle != h {
        assert Holds(View(), OfSock(i), socks[i].handle);
      }
      hide Inv;
      Add(h, TcpClosed);
      socks := socks[id := Sock(SS.Closed, h, 0, 0)];
    }

    /** The bound port, or one that no listener has. */
    method BoundEndpoint(s: Sock) returns (r: Outcome)
      requires InRange(ports.curr)
      modifies ports
      ensures InRange(ports.curr) && (r, ports.curr) == BoundPort(old(View()), s)
      ensures r.Found? ==> r.port != 0 && (s.port != 0 ==> r.port == s.port)
      ensures r.Found? && s.port == 0 ==> r.port < tcp.Length && tcp[r.port].None?
    {
      if s.port != 0 {
        return Found(s.port);
      }
      r := GetEphemeralPort();
    }

    /** On success the socket has the address and the port asked for, or a free one. */
    method Bind(id: nat, addr: nat, port: nat, inUse: bool) returns (r: Reply)
      requires Inv(View()) && Enabled(View(), DoBind(id, addr, port, inUse))
      modifies this, ports
      ensures Inv(View()) && (View(), r) == NetWorld.Bind(old(View()), id, addr, port, inUse)
      ensures id in socks && OthersSame(id) && live == old(live)
      ensures r == InvalidInput ==> socks == old(socks)
      ensures r == Ok ==> socks[id].addr == addr && socks[id].port != 0 && (port != 0 ==> socks[id].port == port)
      ensures r == Ok && port == 0 ==> socks[id].port < tcp.Length && tcp[socks[id].port].None?
    {
      BindKeeps(View(), id, addr, port, inUse);
      assert InRange(ports.curr);
      hide Inv, Scan;
      var s := socks[id];
      if s.st != SS.Closed {
        return InvalidInput;
      }
      var p := port;
      if p == 0 {
        var got := GetEphemeralPort();
        if got.OutOfTable? {
          return Stopped;
        }
        if !got.Found? {
          return Refused;
        }
        p := got.port;
      }
      if s.addr != 0 || s.port != 0 {
        return InvalidInput;
      }
      socks := socks[id := s.(addr := addr, port := p)];
      return if inUse then Refused else Ok;
    }

    /** The part of `listen` that follows the choice of the port. */
    method ListenOn(id: nat, s: Sock, p: nat) returns (r: Reply)
      requires id in socks && socks[id] == s && s.st == SS.Closed && p > 0
      modifies this`socks, tcp
      ensures r == if p >= tcp.Length then Stopped else if old(tcp[p]).Some? then Refused else Ok
      ensures socks == old(socks)[id := s.(port := p, st := if r == Ok then SS.Listening else SS.Closed)]
      ensures tcp[..] == if r == Ok then old(tcp[..])[p := Some(EntryFor(s))] else old(tcp[..])
    {
      socks := socks[id := s.(port := p)];
      if p >= tcp.Length {
        return Stopped;
      }
      r := TableListen(p, if s.addr != 0 then Some(s.addr) else None);
      if r == Ok {
        socks := socks[id := s.(port := p, st := SS.Listening)];
      }
    }

    /** A closed socket listens afterwards, and its port, which is not 0, has an entry with an empty queue. */
    method Listen(id: nat) returns (r: Reply)
      requires Inv(View()) && Enabled(View(), DoListen(id))
      modifies this, tcp, ports
      ensures Inv(View()) && (View(), r) == NetWorld.Listen(old(View()), id)
      ensures id in socks && OthersSame(id) && live == old(live)
      ensures r == Ok && old(socks)[id].st == SS.Closed ==>
                && socks[id].st == SS.Listening && 0 < socks[id].port < tcp.Length
                && tcp[socks[id].port].Some? && tcp[socks[id].port].value.queue == []
    {
      ListenOwned(View(), id);
      ListenAgrees(View(), id);
      assert InRange(ports.curr);
      hide Owned, Agrees, Scan;
      var s := socks[id];
      if s.st != SS.Closed {
        return Ok;
      }
      var got := BoundEndpoint(s);
      if got.OutOfTable? {
        return Stopped;
      }
      if !got.Found? {
        return Refused;
      }
      r := ListenOn(id, s, got.port);
    }

    /** On success the handshake is under way from a local port, the bound one if there was one. */
    method Connect(id: nat, accepted: bool, addr: nat) returns (r: Reply)
      requires Inv(View()) && Enabled(View(), DoConnect(id, accepted, addr))
      modifies this, ports
      ensures Inv(View()) && (View(), r) == NetWorld.Connect(old(View()), id, accepted, addr)
      ensures id in socks && socks[id].handle == old(socks)[id].handle && socks[id].handle in live && OthersSame(id)
      ensures forall k :: k in old(live) && k != socks[id].handle ==> k in live && live[k] == old(live)[k]
      ensures r != Ok ==> socks == old(socks) && live == old(live)
      ensures r == Ok ==>
                && socks[id].st == SS.Connecting && live[socks[id].handle] == SynSent && socks[id].port != 0
                && (old(socks)[id].port != 0 ==> socks[id].port == old(socks)[id].port)
    {
      ConnectKeeps(View(), id, accepted, addr);
      var s := socks[id];
      assert Holds(View(), OfSock(id), s.handle);
      assert s.handle in live && InRange(ports.curr);
      hide Inv, Scan;
      if s.st != SS.Closed {
        return Refused;
      }
      var got := BoundEndpoint(s);
      if got.OutOfTable? {
        return Stopped;
      }
      if !got.Found? || !accepted {
        return Refused;
      }
      SetState(s.handle, SynSent);
      socks := socks[id := s.(st := SS.Connecting, addr := addr, port := got.port)];
      return Ok;
    }

    /** Connecting exactly while the handshake lasts, connected exactly when it succeeded, else unbound. */
    method PollConnect(id: nat)
      requires Inv(View()) && id in socks && socks[id].st == SS.Connecting
      modifies this`socks
      ensures Inv(View()) && View() == NetWorld.PollConnect(old(View()), id)
      ensures id in socks && socks[id].handle in live && OthersSame(id)
      ensures socks[id].st == SS.Connecting <==> live[socks[id].handle] == SynSent
      ensures socks[id].st == SS.Connected <==> live[socks[id].handle] == Established
      ensures socks[id].st == SS.Closed ==> socks[id].addr == 0 && socks[id].port == 0
    {
      PollKeeps(View(), id);
      var s := socks[id];
      assert Holds(View(), OfSock(id), s.handle);
      assert s.handle in live;
      hide Owned, Agrees;
      match live[s.handle] {
        case SynSent =>
        case Established =>
          socks := socks[id := s.(st := SS.Connected)];
        case _ =>
          socks := socks[id := s.(st := SS.Closed, addr := 0, port := 0)];
      }
    }

    /** A new connected socket on the listener's port, or nothing but the queue has changed. */
    method Accept(id: nat, newId: nat, addr: nat) returns (r: Reply)
      requires Inv(View()) && Enabled(View(), DoAccept(id, newId, addr))
      modifies this, tcp
      ensures Inv(View()) && (View(), r) == NetWorld.Accept(old(View()), id, newId, addr)
      ensures OthersSame(newId) && live == old(live)
      ensures r == Ok ==> newId in socks && socks[newId].st == SS.Connected && socks[newId].port == socks[id].port
      ensures r != Ok ==> newId !in socks
      ensures r == Ok ==> var h := socks[newId].handle;
                          h in live && live[h] != TcpListen && live[h] != SynReceived && live[h] != TcpClosed
    {
      hide Owned, Agrees, FirstConnected, SwapRemoveFront, ConnectedOf;
      AcceptOwned(View(), id, newId, addr);
      AcceptAgrees(View(), id, newId, addr);
      var s := socks[id];
      if s.st != SS.Listening {
        return InvalidInput;
      }
      ListenerEntry(View(), id);
      var h;
      r, h := TableAccept(s.port);
      if r == Ok {
        socks := socks[newId := Sock(SS.Connected, h, addr, s.port)];
      }
    }

    /** A connected or listening socket is closed and unbound, and no other socket changes. */
    method Shutdown(id: nat)
      requires Inv(View()) && id in socks
      modifies this, tcp
      ensures Inv(View()) && View() == NetWorld.Shutdown(old(View()), id)
      ensures id in socks && OthersSame(id)
      ensures old(socks)[id].st in {SS.Connected, SS.Listening} ==>
                socks[id].st == SS.Closed && socks[id].addr == 0 && socks[id].port == 0
    {
      ShutdownOwned(View(), id);
      ShutdownAgrees(View(), id);
      var s := socks[id];
      assert Holds(View(), OfSock(id), s.handle);
      assert s.handle in live;
      ghost var w := View();
      if s.st == SS.Connected {
        hide Owned, Agrees;
        SetState(s.handle, CloseTcp(live[s.handle]));
        socks := socks[id := s.(st := SS.Closed, addr := 0, port := 0)];
      } else if s.st == SS.Listening {
        assert Listens(w, id, s.port);
        assert s.port < tcp.Length;
        hide Owned, Agrees;
        socks := socks[id := s.(st := SS.Closed, addr := 0, port := 0)];
        SameHolders(w, View());
        Unlisten(s.port);
      }
    }

    /** The socket and its handle are gone, and no other socket changes. */
    method Drop(id: nat)
      requires Inv(View()) && id in socks
      modifies this, tcp
      ensures Inv(View()) && View() == NetWorld.Drop(old(View()), id)
      ensures id !in socks && old(socks)[id].handle !in live && OthersSame(id)
    {
      hide Owned, Agrees, NetWorld.Shutdown;
      DropOwned(View(), id);
      DropAgrees(View(), id);
      ShutdownOwned(View(), id);
      var h := socks[id].handle;
      RemovedOwned(NetWorld.Shutdown(View(), id), id);
      Shutdown(id);
      Remove(h);
      socks := socks - {id};
    }
  }
}
