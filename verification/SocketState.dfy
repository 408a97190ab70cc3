/**
 The compare-and-swap protocol of `TcpSocket`: any number of threads interleave the steps of bind,
 connect, listen, shutdown and poll on one socket.  A poll tests the state word first and takes the
 lock of the socket set afterwards; under the lock it reads the connection and stores the outcome.
 */
module SocketState {
  datatype St = Closed | Busy | Connecting | Connected | Listening

  /** The calls of `update_state`; shutdown makes two, one after the other. */
  datatype Op = Bind | Connect | Listen | ShutdownStream | ShutdownListener

  function Expect(op: Op): St {
    match op
    case Bind => Closed
    case Connect => Closed
    case Listen => Closed
    case ShutdownStream => Connected
    case ShutdownListener => Listening
  }

  function Target(op: Op): St {
    match op
    case Bind => Closed
    case Connect => Connecting
    case Listen => Listening
    case ShutdownStream => Closed
    case ShutdownListener => Closed
  }

  /** The connection as far as it matters here; `Over` stands for the closing states and for Closed. */
  datatype Conn = SynSent | SynReceived | Established | Over

  /** What the protocol stack may do to a connection by itself. */
  predicate Moves(a: Conn, b: Conn) {
    match a
    case SynSent => b != SynSent
    case SynReceived => b == Established || b == Over
    case Established => b == Over
    case Over => false
  }

  /** Where a thread is. */
  datatype Pc =
    | Idle
    | InClosure(op: Op)            // past a successful exchange, running the closure
    | Worked(op: Op, ok: bool)     // the closure has finished its work on the connection
    | BetweenShutdowns             // after the first, before the second `update_state` of shutdown
    | Polling(again: bool)         // on its way into `poll_connect`; `again` in the loop of a blocking connect

  /** The shared word, the connection, the threads, and the settled values the word has had. */
  datatype Socket = Socket(st: St, conn: Conn, pcs: map<nat, Pc>, hist: seq<St>)

  datatype Action =
    | Exchange(t: nat, op: Op)       // compare_exchange(Expect(op), BUSY)
    | Work(t: nat, ok: bool)         // the closure's work under the lock, and its verdict
    | Finish(t: nat, block: bool)    // store the new or the old state; a blocking connect goes on to poll
    | Test(t: nat)                   // `poll` finds the word CONNECTING
    | Poll(t: nat)                   // `poll_connect`: read the connection and store, under one lock
    | Net(to: Conn)                  // the protocol stack moves the connection

  // ------------------------------------------------------------------ steps

  predicate Possible(s: Socket, a: Action) {
    (a.Net? || a.t in s.pcs)
    && match a
       case Exchange(t, op) => s.pcs[t] == if op.ShutdownListener? then BetweenShutdowns else Idle
       case Work(t, ok) =>
         && s.pcs[t].InClosure? && (ok || s.pcs[t].op in {Bind, Connect, Listen})
         && (ok && s.pcs[t].op.Connect? ==> s.conn == Over)
       case Finish(t, _) => s.pcs[t].Worked?
       case Test(t) => s.pcs[t].Idle? && s.st == Connecting
       case Poll(t) => s.pcs[t].Polling?
       case Net(to) => Moves(s.conn, to)
  }

  function At(s: Socket, t: nat, pc: Pc): Socket {
    s.(pcs := s.pcs[t := pc])
  }

  function Last(s: Socket): St
    requires s.hist != []
  {
    s.hist[|s.hist| - 1]
  }

  /** A store of a settled value; the history records it when it is another one. */
  function Store(s: Socket, st: St): Socket {
    s.(st := st, hist := if s.hist != [] && Last(s) == st then s.hist else s.hist + [st])
  }

  /** smoltcp's `connect` sends a SYN, its `close` ends the connection. */
  function AfterWork(conn: Conn, op: Op, ok: bool): Conn {
    if op.Connect? && ok then SynSent else if op.ShutdownStream? then Over else conn
  }

  /** A poll stores something unless it has to wait. */
  predicate Stores(s: Socket, a: Action) {
    a.Poll? && s.conn != SynSent
  }

  function Outcome(conn: Conn): St {
    if conn.Established? then Connected else Closed
  }

  /** What a thread does after the store of its closure. */
  function Next(op: Op, ok: bool, block: bool): Pc {
    if op.ShutdownStream? then BetweenShutdowns
    else if op.Connect? && ok && block then Polling(true)
    else Idle
  }

  function Step(s: Socket, a: Action): Socket
    requires Possible(s, a)
  {
    match a
    case Exchange(t, op) =>
      if s.st == Expect(op) then At(s, t, InClosure(op)).(st := Busy)
      else At(s, t, if op.ShutdownStream? then BetweenShutdowns else Idle)
    case Work(t, ok) => At(s, t, Worked(s.pcs[t].op, ok)).(conn := AfterWork(s.conn, s.pcs[t].op, ok))
    case Finish(t, block) =>
      var op, ok := s.pcs[t].op, s.pcs[t].ok;
      At(Store(s, if ok then Target(op) else Expect(op)), t, Next(op, ok, block))
    case Test(t) => At(s, t, Polling(false))
    case Poll(t) =>
      if Stores(s, a) then At(Store(s, Outcome(s.conn)), t, Idle)
      else At(s, t, if s.pcs[t].again then s.pcs[t] else Idle)
    case Net(to) => s.(conn := to)
  }

  // ------------------------------------------------------------------ what should hold

  predicate Inside(pc: Pc) {
    pc.InClosure? || pc.Worked?
  }

  /** The documented transitions between settled states, and giving up a connection attempt. */
  predicate Edge(a: St, b: St) {
    || (a == Closed && b in {Connecting, Listening})
    || (a == Connecting && b in {Connected, Closed})
    || (a == Connected && b == Closed)
    || (a == Listening && b == Closed)
  }

  ghost predicate FollowsEdges(hist: seq<St>) {
    && hist != [] && hist[0] in {Closed, Connected}
    && forall i :: 0 <= i < |hist| - 1 ==> Edge(hist[i], hist[i + 1])
  }

  ghost predicate SomeInside(s: Socket) {
    exists t :: t in s.pcs && Inside(s.pcs[t])
  }

  ghost predicate OneInside(s: Socket) {
    forall t, u :: t in s.pcs && u in s.pcs && Inside(s.pcs[t]) && Inside(s.pcs[u]) ==> t == u
  }

  /** BUSY exactly while one thread is inside a closure; settled states follow the edges. */
  ghost predicate Good(s: Socket) {
    (s.st == Busy <==> SomeInside(s)) && OneInside(s) && FollowsEdges(s.hist)
  }

  /** A failed poll clears the addresses, which a closure may be writing. */
  ghost predicate Clash(s: Socket, a: Action) {
    Stores(s, a) && Outcome(s.conn) == Closed && SomeInside(s)
  }

  /** The actions can be performed one after another. */
  ghost predicate Performs(s: Socket, acts: seq<Action>)
    decreases |acts|
  {
    acts == [] || (Possible(s, acts[0]) && Performs(Step(s, acts[0]), acts[1..]))
  }

  /** Every state of the run is good and no step writes the addresses beside a closure. */
  ghost predicate Sound(s: Socket, acts: seq<Action>)
    requires Performs(s, acts)
    decreases |acts|
  {
    Good(s) && (acts == [] || (!Clash(s, acts[0]) && Sound(Step(s, acts[0]), acts[1..])))
  }

  /**
   A poll that waits is harmless.  One that stores CONNECTED must find the word CONNECTING or CONNECTED;
   one that stores CLOSED must not find it BUSY.
   */
  predicate Harmless(s: Socket, a: Action) {
    Stores(s, a) ==>
      if s.conn.Established? then s.st == Connecting || s.st == Connected else s.st != Busy
  }

  ghost predicate AllHarmless(s: Socket, acts: seq<Action>)
    requires Performs(s, acts)
    decreases |acts|
  {
    acts == [] || (Harmless(s, acts[0]) && AllHarmless(Step(s, acts[0]), acts[1..]))
  }

  // ------------------------------------------------------------------ the invariant

  ghost predicate Inv(s: Socket) {
    && Good(s)
    && (s.st == Busy || s.st == Last(s))
    && forall t :: t in s.pcs && Inside(s.pcs[t]) ==> Last(s) == Expect(s.pcs[t].op)
  }

  lemma EdgesGrow(hist: seq<St>, b: St)
    requires FollowsEdges(hist) && Edge(hist[|hist| - 1], b)
    ensures FollowsEdges(hist + [b])
  {
    var h := hist + [b];
    forall i | 0 <= i < |h| - 1 ensures Edge(h[i], h[i + 1]) {
      if i < |hist| - 1 { assert Edge(hist[i], hist[i + 1]); }
    }
  }

  lemma EdgesEnd(hist: seq<St>, b: St)
    requires FollowsEdges(hist + [b]) && hist != []
    ensures Edge(hist[|hist| - 1], b)
  {
    var h := hist + [b];
    assert Edge(h[|hist| - 1], h[|hist| - 1 + 1]);
  }

  lemma NoSettledBusy(hist: seq<St>)
    requires FollowsEdges(hist)
    ensures hist[|hist| - 1] != Busy
  {
    if |hist| > 1 { assert Edge(hist[|hist| - 2], hist[|hist| - 2 + 1]); }
  }

  lemma ExchangeKeeps(s: Socket, t: nat, op: Op)
    requires Inv(s) && Possible(s, Exchange(t, op))
    ensures Inv(Step(s, Exchange(t, op)))
  {
    var s' := Step(s, Exchange(t, op));
    NoSettledBusy(s.hist);
    assert forall u :: u in s'.pcs && u != t ==> u in s.pcs && s'.pcs[u] == s.pcs[u];
    if s.st == Expect(op) {
      assert s'.pcs[t].InClosure?;
    } else if s.st == Busy {
      var u :| u in s.pcs && Inside(s.pcs[u]);
      assert u in s'.pcs && Inside(s'.pcs[u]);
    }
    hide FollowsEdges;
  }

  lemma WorkKeeps(s: Socket, t: nat, ok: bool)
    requires Inv(s) && Possible(s, Work(t, ok))
    ensures Inv(Step(s, Work(t, ok)))
  {
    var s' := Step(s, Work(t, ok));
    assert t in s'.pcs && Inside(s'.pcs[t]);
    assert forall u :: u in s'.pcs ==> u in s.pcs && Inside(s'.pcs[u]) == Inside(s.pcs[u]);
    hide FollowsEdges;
  }

  lemma FinishKeeps(s: Socket, t: nat, block: bool)
    requires Inv(s) && Possible(s, Finish(t, block))
    ensures Inv(Step(s, Finish(t, block)))
  {
    var op, ok := s.pcs[t].op, s.pcs[t].ok;
    var b := if ok then Target(op) else Expect(op);
    var s' := Step(s, Finish(t, block));
    assert Inside(s.pcs[t]);
    if Last(s) != b { EdgesGrow(s.hist, b); }
    assert FollowsEdges(s'.hist) && Last(s') == b;
    forall u | u in s'.pcs ensures !Inside(s'.pcs[u]) {
      if u != t { assert u in s.pcs && s'.pcs[u] == s.pcs[u]; }
    }
    hide FollowsEdges;
  }

  /** Stores that a poll may make keep the invariant. */
  lemma PollKeeps(s: Socket, t: nat)
    requires Inv(s) && Possible(s, Poll(t)) && Harmless(s, Poll(t))
    ensures Inv(Step(s, Poll(t))) && !Clash(s, Poll(t))
  {
    var s' := Step(s, Poll(t));
    assert forall u :: u in s.pcs ==> u in s'.pcs && Inside(s'.pcs[u]) == Inside(s.pcs[u]);
    assert forall u :: u in s'.pcs ==> u in s.pcs;
    if Stores(s, Poll(t)) && Last(s) != Outcome(s.conn) {
      EdgesGrow(s.hist, Outcome(s.conn));
    }
    assert Stores(s, Poll(t)) ==> Last(s') == Outcome(s.conn);
    hide FollowsEdges;
  }

  lemma TestKeeps(s: Socket, t: nat)
    requires Inv(s) && Possible(s, Test(t))
    ensures Inv(Step(s, Test(t)))
  {
    var s' := Step(s, Test(t));
    assert forall u :: u in s.pcs ==> u in s'.pcs && Inside(s'.pcs[u]) == Inside(s.pcs[u]);
    hide FollowsEdges;
  }

  lemma StepKeeps(s: Socket, a: Action)
    requires Inv(s) && Possible(s, a) && Harmless(s, a)
    ensures Inv(Step(s, a)) && !Clash(s, a)
  {
    match a
    case Exchange(t, op) => ExchangeKeeps(s, t, op);
    case Work(t, ok) => WorkKeeps(s, t, ok);
    case Finish(t, block) => FinishKeeps(s, t, block);
    case Test(t) => TestKeeps(s, t);
    case Poll(t) => PollKeeps(s, t);
    case Net(_) =>
  }

  /** A harmful poll spoils the next state. */
  lemma HarmSpoils(s: Socket, t: nat)
    requires Inv(s) && Possible(s, Poll(t)) && !Harmless(s, Poll(t))
    ensures !Good(Step(s, Poll(t)))
  {
    var s' := Step(s, Poll(t));
    if s.st == Busy {
      var u :| u in s.pcs && Inside(s.pcs[u]);
      assert u in s'.pcs && Inside(s'.pcs[u]);
    } else if FollowsEdges(s'.hist) {
      EdgesEnd(s.hist, Connected);
      assert false;
    }
  }

  // ------------------------------------------------------------------ the exact condition

  /** A run keeps everything if and only if each poll that stores is harmless. */
  lemma {:induction false} SoundIffHarmless(s: Socket, acts: seq<Action>)
    requires Inv(s) && Performs(s, acts)
    ensures Sound(s, acts) <==> AllHarmless(s, acts)
    decreases |acts|
  {
    if acts != [] {
      var a, s1 := acts[0], Step(s, acts[0]);
      if Harmless(s, a) {
        StepKeeps(s, a);
        SoundIffHarmless(s1, acts[1..]);
      } else {
        HarmSpoils(s, a.t);
        hide Good;
        assert !Sound(s1, acts[1..]);
      }
      hide Step, Good, Clash, Harmless;
    }
  }

  /** A socket fresh from `new` or `new_connected`, with any number of threads. */
  ghost predicate Initial(s: Socket) {
    && s.st in {Closed, Connected} && s.hist == [s.st] && (s.st == Closed ==> s.conn == Over)
    && forall t :: t in s.pcs ==> s.pcs[t] == Idle
  }

  lemma InitialOk(s: Socket)
    requires Initial(s)
    ensures Inv(s)
  {
  }

  // ------------------------------------------------------------------ one poller at a time

  ghost predicate Alone(s: Socket) {
    forall t :: t in s.pcs ==> !s.pcs[t].Polling?
  }

  /** A thread begins to poll only while no other is at it. */
  ghost predicate OnePoller(s: Socket, acts: seq<Action>)
    requires Performs(s, acts)
    decreases |acts|
  {
    acts == [] || ((acts[0].Test? ==> Alone(s)) && OnePoller(Step(s, acts[0]), acts[1..]))
  }

  /** While a thread polls, it alone does, and the word stays CONNECTING. */
  ghost predicate PollerInv(s: Socket) {
    && (forall t :: t in s.pcs && s.pcs[t].Polling? ==> s.st == Connecting)
    && (forall t, u :: t in s.pcs && u in s.pcs && s.pcs[t].Polling? && s.pcs[u].Polling? ==> t == u)
  }

  lemma PollerStep(s: Socket, a: Action)
    requires Inv(s) && PollerInv(s) && Possible(s, a) && (a.Test? ==> Alone(s))
    ensures PollerInv(Step(s, a)) && Harmless(s, a)
  {
    var s' := Step(s, a);
    assert forall u :: u in s'.pcs ==> u in s.pcs && (a.Net? || u != a.t ==> s'.pcs[u] == s.pcs[u]);
    if a.Finish? { assert Inside(s.pcs[a.t]); }
    hide FollowsEdges;
  }

  /** With one poller at a time, as the code assumes, every poll is harmless. */
  lemma {:induction false} OnePollerIsHarmless(s: Socket, acts: seq<Action>)
    requires Inv(s) && PollerInv(s) && Performs(s, acts) && OnePoller(s, acts)
    ensures AllHarmless(s, acts)
    decreases |acts|
  {
    if acts != [] {
      PollerStep(s, acts[0]);
      StepKeeps(s, acts[0]);
      hide Inv, PollerInv, Harmless, Step;
      OnePollerIsHarmless(Step(s, acts[0]), acts[1..]);
    }
  }

  /** The state after a run. */
  ghost function After(s: Socket, acts: seq<Action>): Socket
    requires Performs(s, acts)
    decreases |acts|
  {
    if acts == [] then s else After(Step(s, acts[0]), acts[1..])
  }

  lemma {:induction false} SoundEnds(s: Socket, acts: seq<Action>)
    requires Performs(s, acts) && Sound(s, acts)
    ensures Good(After(s, acts))
    decreases |acts|
  {
    if acts != [] { SoundEnds(Step(s, acts[0]), acts[1..]); }
  }

  lemma OnePollerIsSound(s: Socket, acts: seq<Action>)
    requires Initial(s) && Performs(s, acts) && OnePoller(s, acts)
    ensures Sound(s, acts) && Good(After(s, acts))
  {
    InitialOk(s);
    assert PollerInv(s);
    hide *;
    OnePollerIsHarmless(s, acts);
    SoundIffHarmless(s, acts);
    SoundEnds(s, acts);
  }

  /** With one poller the word is BUSY exactly while some thread, and then only one, is inside a closure. */
  lemma BusyExactly(s: Socket, acts: seq<Action>)
    requires Initial(s) && Performs(s, acts) && OnePoller(s, acts)
    ensures var s' := After(s, acts); (s'.st == Busy <==> SomeInside(s')) && OneInside(s')
  {
    OnePollerIsSound(s, acts);
  }

  /** With one poller the settled states follow the documented edges only. */
  lemma OnlyDocumentedEdges(s: Socket, acts: seq<Action>)
    requires Initial(s) && Performs(s, acts) && OnePoller(s, acts)
    ensures FollowsEdges(After(s, acts).hist)
  {
    OnePollerIsSound(s, acts);
  }

  /** With one poller a failed poll never clears the addresses while a closure may be writing them. */
  lemma OneWriter(s: Socket, acts: seq<Action>, a: Action)
    requires Initial(s) && Performs(s, acts + [a]) && OnePoller(s, acts + [a])
    ensures Performs(s, acts) && !Clash(After(s, acts), a)
  {
    OnePollerIsSound(s, acts + [a]);
    NoClashAt(s, acts, a);
  }

  lemma {:induction false} NoClashAt(s: Socket, acts: seq<Action>, a: Action)
    requires Performs(s, acts + [a]) && Sound(s, acts + [a])
    ensures Performs(s, acts) && !Clash(After(s, acts), a)
    decreases |acts|
  {
    var all := acts + [a];
    if acts != [] {
      assert all[1..] == acts[1..] + [a] && all[0] == acts[0];
      NoClashAt(Step(s, acts[0]), acts[1..], a);
    }
  }

  // ------------------------------------------------------------------ what one call does to the word

  /** An exchange gets in exactly from CLOSED, CONNECTED or LISTENING, by the operation, and the word is BUSY then. */
  lemma ExchangeSucceeds(s: Socket, t: nat, op: Op)
    requires Possible(s, Exchange(t, op))
    ensures var s' := Step(s, Exchange(t, op));
            && (s'.pcs[t] == InClosure(op) <==>
                  (op.Bind? && s.st == Closed) || (op.Connect? && s.st == Closed) || (op.Listen? && s.st == Closed)
                  || (op.ShutdownStream? && s.st == Connected) || (op.ShutdownListener? && s.st == Listening))
            && s'.st == (if s'.pcs[t] == InClosure(op) then Busy else s.st)
            && s'.hist == s.hist && s'.conn == s.conn
            && (s'.pcs[t] != InClosure(op) ==> s'.pcs[t] == if op.ShutdownStream? then BetweenShutdowns else Idle)
  {
  }

  /** The history grows at its end, and its end is the word whenever the word is settled. */
  ghost predicate Recorded(s: Socket) {
    s.hist != [] && (s.st != Busy ==> Last(s) == s.st)
  }

  lemma {:induction false} HistoryRecords(s: Socket, acts: seq<Action>)
    requires Recorded(s) && Performs(s, acts)
    ensures Recorded(After(s, acts)) && s.hist <= After(s, acts).hist
    decreases |acts|
  {
    if acts != [] {
      assert Recorded(Step(s, acts[0])) && s.hist <= Step(s, acts[0]).hist;
      hide Recorded, Possible, Step;
      HistoryRecords(Step(s, acts[0]), acts[1..]);
    }
  }

  /** Until it finishes, a thread stays inside the closure it entered; its verdict is that of its own work. */
  lemma {:induction false} StaysInside(s: Socket, acts: seq<Action>, t: nat, op: Op)
    requires Performs(s, acts) && t in s.pcs && Inside(s.pcs[t]) && s.pcs[t].op == op
    requires forall block :: Finish(t, block) !in acts
    ensures var pc := After(s, acts).pcs;
            && t in pc && Inside(pc[t]) && pc[t].op == op
            && (pc[t].Worked? ==> s.pcs[t] == pc[t] || Work(t, pc[t].ok) in acts)
    decreases |acts|
  {
    if acts != [] {
      assert acts[0] in acts && forall a :: a in acts[1..] ==> a in acts;
      var s1 := Step(s, acts[0]);
      assert t in s1.pcs && Inside(s1.pcs[t]) && s1.pcs[t].op == op;
      assert s1.pcs[t] == s.pcs[t] || (s1.pcs[t].Worked? && acts[0] == Work(t, s1.pcs[t].ok));
      hide Step, Possible;
      StaysInside(s1, acts[1..], t, op);
    }
  }

  /**
   From the exchange of a thread to its own finish, whatever the others do in between: a closure that
   failed leaves the word as the exchange found it, and one that succeeded leaves what the operation is for.
   */
  lemma FinishSettles(s: Socket, t: nat, op: Op, acts: seq<Action>, block: bool)
    requires Possible(s, Exchange(t, op)) && Step(s, Exchange(t, op)).pcs[t].InClosure?
    requires Performs(Step(s, Exchange(t, op)), acts) && forall b :: Finish(t, b) !in acts
    requires Possible(After(Step(s, Exchange(t, op)), acts), Finish(t, block))
    ensures var s2 := After(Step(s, Exchange(t, op)), acts);
            && s2.pcs[t].Worked? && Work(t, s2.pcs[t].ok) in acts
            && var s3 := Step(s2, Finish(t, block));
            && (!s2.pcs[t].ok ==> s3.st == s.st && s3.pcs[t] == Idle)
            && (s2.pcs[t].ok ==>
                  match op
                  case Bind => s3.st == Closed && s3.pcs[t] == Idle
                  case Connect => s3.st == Connecting && s3.pcs[t] == if block then Polling(true) else Idle
                  case Listen => s3.st == Listening && s3.pcs[t] == Idle
                  case ShutdownStream => s3.st == Closed && s3.pcs[t] == BetweenShutdowns
                  case ShutdownListener => s3.st == Closed && s3.pcs[t] == Idle)
  {
    var s1 := Step(s, Exchange(t, op));
    StaysInside(s1, acts, t, op);
    VerdictPossible(s1, acts, t, op);
    hide Performs, After;
  }

  /** Only bind, connect and listen can fail inside. */
  lemma {:induction false} VerdictPossible(s: Socket, acts: seq<Action>, t: nat, op: Op)
    requires Performs(s, acts) && t in s.pcs && Inside(s.pcs[t]) && s.pcs[t].op == op
    requires s.pcs[t].Worked? && !s.pcs[t].ok ==> op.Bind? || op.Connect? || op.Listen?
    requires forall block :: Finish(t, block) !in acts
    ensures var pc := After(s, acts).pcs;
            t in pc && (pc[t].Worked? && !pc[t].ok ==> op.Bind? || op.Connect? || op.Listen?)
    decreases |acts|
  {
    if acts != [] {
      assert acts[0] in acts && forall a :: a in acts[1..] ==> a in acts;
      var s1 := Step(s, acts[0]);
      assert t in s1.pcs && Inside(s1.pcs[t]) && s1.pcs[t].op == op;
      assert s1.pcs[t].Worked? && !s1.pcs[t].ok ==> op.Bind? || op.Connect? || op.Listen?;
      hide Step, Possible;
      VerdictPossible(s1, acts[1..], t, op);
    }
  }

  /** A poll waits during the handshake, and stores CONNECTED or CLOSED by whether the connection is established. */
  lemma PollSettles(s: Socket, t: nat)
    requires Possible(s, Poll(t))
    ensures var s' := Step(s, Poll(t));
            && s'.st == (match s.conn case SynSent => s.st case Established => Connected case _ => Closed)
            && s'.pcs[t] == (if s.conn == SynSent && s.pcs[t] == Polling(true) then Polling(true) else Idle)
            && s'.conn == s.conn
  {
  }

  /** A connect that is taken sends a SYN, a shutdown of a stream ends the connection, nothing else touches it. */
  lemma WorkChanges(s: Socket, t: nat, ok: bool)
    requires Possible(s, Work(t, ok))
    ensures var s', op := Step(s, Work(t, ok)), s.pcs[t].op;
            && s'.conn == (match op
                           case Connect => (if ok then SynSent else s.conn)
                           case ShutdownStream => Over
                           case _ => s.conn)
            && s'.st == s.st && s'.hist == s.hist && s'.pcs[t] == Worked(op, ok)
  {
  }

  // ------------------------------------------------------------------ two pollers

  ghost predicate Leads(s: Socket, acts: seq<Action>, s': Socket) {
    Performs(s, acts) && After(s, acts) == s'
  }

  lemma {:induction false} Extend(s: Socket, acts: seq<Action>, s1: Socket, a: Action)
    requires Leads(s, acts, s1) && Possible(s1, a)
    ensures Leads(s, acts + [a], Step(s1, a))
    decreases |acts|
  {
    var all := acts + [a];
    if acts != [] {
      assert all[1..] == acts[1..] + [a] && all[0] == acts[0];
      Extend(Step(s, acts[0]), acts[1..], s1, a);
    } else {
      assert all[1..] == [] && all[0] == a;
    }
  }

  function Three(x: Pc, y: Pc, z: Pc): map<nat, Pc> {
    map[0 := x, 1 := y, 2 := z]
  }

  lemma ThreeSet(x: Pc, y: Pc, z: Pc, w: Pc, i: nat)
    requires i < 3
    ensures Three(x, y, z)[i := w] == Three(if i == 0 then w else x, if i == 1 then w else y, if i == 2 then w else z)
  {
  }

  function Fresh(): Socket {
    Socket(Closed, Over, Three(Idle, Idle, Idle), [Closed])
  }

  /** Thread 0 has connected without blocking; threads 1 and 2 have both found the word CONNECTING. */
  function BothIn(): Socket {
    Socket(Connecting, SynSent, Three(Idle, Polling(false), Polling(false)), [Closed, Connecting])
  }

  function TwoIn(): seq<Action> {
    [] + [Exchange(0, Connect)] + [Work(0, true)] + [Finish(0, false)] + [Test(1)] + [Test(2)]
  }

  lemma ConnectSteps()
    ensures Leads(Fresh(), [] + [Exchange(0, Connect)] + [Work(0, true)] + [Finish(0, false)],
                  Socket(Connecting, SynSent, Three(Idle, Idle, Idle), [Closed, Connecting]))
  {
    var s1 := Socket(Busy, Over, Three(InClosure(Connect), Idle, Idle), [Closed]);
    var s2 := Socket(Busy, SynSent, Three(Worked(Connect, true), Idle, Idle), [Closed]);
    ThreeSet(Idle, Idle, Idle, InClosure(Connect), 0);
    ThreeSet(InClosure(Connect), Idle, Idle, Worked(Connect, true), 0);
    ThreeSet(Worked(Connect, true), Idle, Idle, Idle, 0);
    assert [Closed] + [Connecting] == [Closed, Connecting];
    assert Leads(Fresh(), [], Fresh());
    hide Leads;
    Extend(Fresh(), [], Fresh(), Exchange(0, Connect));
    Extend(Fresh(), [] + [Exchange(0, Connect)], s1, Work(0, true));
    Extend(Fresh(), [] + [Exchange(0, Connect)] + [Work(0, true)], s2, Finish(0, false));
  }

  lemma BothTest()
    ensures Leads(Fresh(), TwoIn(), BothIn())
  {
    var acts := [] + [Exchange(0, Connect)] + [Work(0, true)] + [Finish(0, false)];
    var s3 := Socket(Connecting, SynSent, Three(Idle, Idle, Idle), [Closed, Connecting]);
    var s4 := s3.(pcs := Three(Idle, Polling(false), Idle));
    ThreeSet(Idle, Idle, Idle, Polling(false), 1);
    ThreeSet(Idle, Polling(false), Idle, Polling(false), 2);
    hide Leads;
    ConnectSteps();
    Extend(Fresh(), acts, s3, Test(1));
    Extend(Fresh(), acts + [Test(1)], s4, Test(2));
  }

  /** The first poller has stored the outcome; thread 0 has then entered a closure. */
  lemma FirstStores(conn: Conn, op: Op)
    requires (conn == Established && op == ShutdownStream) || (conn == Over && op == Bind)
    ensures Leads(Fresh(), TwoIn() + [Net(conn)] + [Poll(1)] + [Exchange(0, op)],
                  Socket(Busy, conn, Three(InClosure(op), Idle, Polling(false)), [Closed, Connecting, Outcome(conn)]))
  {
    var s6 := BothIn().(conn := conn);
    var s7 := Socket(Outcome(conn), conn, Three(Idle, Idle, Polling(false)), [Closed, Connecting, Outcome(conn)]);
    ThreeSet(Idle, Polling(false), Polling(false), Idle, 1);
    ThreeSet(Idle, Idle, Polling(false), InClosure(op), 0);
    assert [Closed, Connecting] + [Outcome(conn)] == [Closed, Connecting, Outcome(conn)];
    hide Leads, TwoIn;
    BothTest();
    Extend(Fresh(), TwoIn(), BothIn(), Net(conn));
    Extend(Fresh(), TwoIn() + [Net(conn)], s6, Poll(1));
    Extend(Fresh(), TwoIn() + [Net(conn)] + [Poll(1)], s7, Exchange(0, op));
  }

  /** With two pollers CONNECTED can be stored over BUSY while a shutdown is inside its closure. */
  lemma TwoPollersBreakIt() returns (acts: seq<Action>, s': Socket)
    ensures Initial(Fresh()) && Leads(Fresh(), acts, s')
    ensures s'.st == Connected && SomeInside(s') && !Good(s')
  {
    var s8 := Socket(Busy, Established, Three(InClosure(ShutdownStream), Idle, Polling(false)),
                     [Closed, Connecting, Connected]);
    s' := Step(s8, Poll(2));
    ThreeSet(InClosure(ShutdownStream), Idle, Polling(false), Idle, 2);
    assert s'.pcs[0].InClosure?;
    var pre := TwoIn() + [Net(Established)] + [Poll(1)] + [Exchange(0, ShutdownStream)];
    hide Leads, TwoIn;
    FirstStores(Established, ShutdownStream);
    Extend(Fresh(), pre, s8, Poll(2));
    acts := pre + [Poll(2)];
  }

  /** And a failed poll can clear the addresses while a bind is inside its closure. */
  lemma TwoPollersClash() returns (acts: seq<Action>, s': Socket)
    ensures Initial(Fresh()) && Leads(Fresh(), acts, s') && Possible(s', Poll(2)) && Clash(s', Poll(2))
  {
    s' := Socket(Busy, Over, Three(InClosure(Bind), Idle, Polling(false)), [Closed, Connecting, Closed]);
    assert s'.pcs[0].InClosure?;
    hide Leads, TwoIn;
    FirstStores(Over, Bind);
    acts := TwoIn() + [Net(Over)] + [Poll(1)] + [Exchange(0, Bind)];
  }
}
