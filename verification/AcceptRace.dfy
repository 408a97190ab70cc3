/**
 One `accept` looks at its connection three times, each time under the lock of the socket set but not
 in between: whether the handshake is over, whether the connection is closed, and what its endpoints
 are.  Other threads may poll the interfaces between the lookups.
 */
module AcceptRace {
  type Handle = nat

  /** A queued connection: in its handshake, open, or closed; a closed one loses its endpoints sooner or later. */
  datatype Conn = Waiting | Open | Shut(endpoints: bool)

  /** What the protocol stack may do: a connection that has left its handshake never returns to it. */
  predicate Moves(a: Conn, b: Conn) {
    match a
    case Waiting => true
    case Open => !b.Waiting?
    case Shut(e) => b.Shut? && (b.endpoints ==> e)
  }

  /** Where a thread is: outside, past the first or the second lookup, or done. */
  datatype Pc =
    | Outside
    | Found(h: Handle)
    | Alive(h: Handle)
    | Accepted(h: Handle)
    | Reset(h: Handle)
    | Failed(h: Handle)

  datatype State = State(conns: map<Handle, Conn>, queue: set<Handle>, pcs: map<nat, Pc>)

  datatype Action =
    | Find(t: nat, h: Handle)                // the handshake is over: the handle leaves the queue
    | Test(t: nat)                           // is the connection closed?
    | Endpoints(t: nat)                      // unwrap both endpoints
    | Polls(t: nat, h: Handle, to: Conn)     // a thread outside polls, and a connection changes

  predicate Possible(s: State, a: Action) {
    && a.t in s.pcs
    && match a
       case Find(t, h) => s.pcs[t].Outside? && h in s.queue && h in s.conns && !s.conns[h].Waiting?
       case Test(t) => s.pcs[t].Found? && s.pcs[t].h in s.conns
       case Endpoints(t) => s.pcs[t].Alive? && s.pcs[t].h in s.conns
       case Polls(t, h, to) => s.pcs[t].Outside? && h in s.conns && Moves(s.conns[h], to)
  }

  function Step(s: State, a: Action): State
    requires Possible(s, a)
  {
    match a
    case Find(t, h) => s.(queue := s.queue - {h}, pcs := s.pcs[t := Found(h)])
    case Test(t) =>
      var h := s.pcs[t].h;
      s.(pcs := s.pcs[t := if s.conns[h].Shut? then Reset(h) else Alive(h)])
    case Endpoints(t) =>
      var h := s.pcs[t].h;
      s.(pcs := s.pcs[t := if s.conns[h] == Shut(false) then Failed(h) else Accepted(h)])
    case Polls(_, h, to) => s.(conns := s.conns[h := to])
  }

  ghost predicate Performs(s: State, acts: seq<Action>)
    decreases |acts|
  {
    acts == [] || (Possible(s, acts[0]) && Performs(Step(s, acts[0]), acts[1..]))
  }

  ghost function After(s: State, acts: seq<Action>): State
    requires Performs(s, acts)
    decreases |acts|
  {
    if acts == [] then s else After(Step(s, acts[0]), acts[1..])
  }

  ghost predicate Initial(s: State) {
    s.queue <= s.conns.Keys && forall t :: t in s.pcs ==> s.pcs[t] == Outside
  }

  // ------------------------------------------------------------------ one accept for each connection

  /** A connection that a thread has found is out of the queue and no other thread has found it. */
  ghost predicate Apart(s: State) {
    && (forall t :: t in s.pcs && !s.pcs[t].Outside? ==> s.pcs[t].h !in s.queue)
    && (forall t, u :: t in s.pcs && u in s.pcs && t != u && !s.pcs[t].Outside? && !s.pcs[u].Outside? ==>
          s.pcs[t].h != s.pcs[u].h)
  }

  lemma {:induction false} StaysApart(s: State, acts: seq<Action>)
    requires Apart(s) && Performs(s, acts)
    ensures Apart(After(s, acts))
    decreases |acts|
  {
    if acts != [] {
      assert Apart(Step(s, acts[0]));
      hide Apart, Possible, Step;
      StaysApart(Step(s, acts[0]), acts[1..]);
    }
  }

  /** In every interleaving no connection goes to two accepts. */
  lemma NeverTwice(s: State, acts: seq<Action>, t: nat, u: nat)
    requires Initial(s) && Performs(s, acts) && t in After(s, acts).pcs && u in After(s, acts).pcs && t != u
    requires !After(s, acts).pcs[t].Outside? && !After(s, acts).pcs[u].Outside?
    ensures After(s, acts).pcs[t].h != After(s, acts).pcs[u].h
  {
    StaysApart(s, acts);
  }

  // ------------------------------------------------------------------ doomed threads

  /** The thread is past its second lookup and the connection has lost its endpoints. */
  predicate Doomed(s: State, t: nat) {
    t in s.pcs && s.pcs[t].Alive? && s.pcs[t].h in s.conns && s.conns[s.pcs[t].h] == Shut(false)
  }

  /** The only way out of it is the `unwrap` that fails. */
  lemma DoomedStep(s: State, a: Action, t: nat)
    requires Doomed(s, t) && Possible(s, a)
    ensures if a.t == t then a == Endpoints(t) && Step(s, a).pcs[t].Failed? else Doomed(Step(s, a), t)
  {
  }

  ghost predicate FailsOrDoomed(s: State, t: nat) {
    Doomed(s, t) || (t in s.pcs && s.pcs[t].Failed?)
  }

  lemma {:induction false} DoomedForever(s: State, acts: seq<Action>, t: nat)
    requires FailsOrDoomed(s, t) && Performs(s, acts)
    ensures FailsOrDoomed(After(s, acts), t)
    decreases |acts|
  {
    if acts != [] {
      if Doomed(s, t) { DoomedStep(s, acts[0], t); }
      DoomedForever(Step(s, acts[0]), acts[1..], t);
    }
  }

  // ------------------------------------------------------------------ the exact condition

  ghost predicate AllSafe(s: State) {
    forall t :: !FailsOrDoomed(s, t)
  }

  /** No thread of the run fails or is bound to. */
  ghost predicate Safe(s: State, acts: seq<Action>)
    requires Performs(s, acts)
    decreases |acts|
  {
    AllSafe(s) && (acts == [] || Safe(Step(s, acts[0]), acts[1..]))
  }

  /** A poll makes a connection forget its endpoints while some thread is between its second and third lookup of it. */
  ghost predicate Harms(s: State, a: Action) {
    a.Polls? && a.to == Shut(false) && exists t :: t in s.pcs && s.pcs[t] == Alive(a.h)
  }

  ghost predicate NoHarm(s: State, acts: seq<Action>)
    requires Performs(s, acts)
    decreases |acts|
  {
    acts == [] || (!Harms(s, acts[0]) && NoHarm(Step(s, acts[0]), acts[1..]))
  }

  lemma HarmDooms(s: State, a: Action)
    requires AllSafe(s) && Possible(s, a)
    ensures AllSafe(Step(s, a)) <==> !Harms(s, a)
  {
    var s' := Step(s, a);
    if Harms(s, a) {
      var t :| t in s.pcs && s.pcs[t] == Alive(a.h);
      assert FailsOrDoomed(s', t);
    } else {
      forall t ensures !FailsOrDoomed(s', t) {
        assert !FailsOrDoomed(s, t);
        if a.Polls? && t in s.pcs && s.pcs[t].Alive? { assert s.pcs[t] == Alive(s.pcs[t].h); }
      }
    }
  }

  lemma {:induction false} SafeFrom(s: State, acts: seq<Action>)
    requires AllSafe(s) && Performs(s, acts)
    ensures Safe(s, acts) <==> NoHarm(s, acts)
    decreases |acts|
  {
    if acts != [] {
      HarmDooms(s, acts[0]);
      hide Possible, Step, Harms, FailsOrDoomed;
      if !Harms(s, acts[0]) { SafeFrom(Step(s, acts[0]), acts[1..]); }
    }
  }

  /** No accept meets missing endpoints if and only if no poll takes them away between its second and third lookup. */
  lemma SafeIffNoHarm(s: State, acts: seq<Action>)
    requires Initial(s) && Performs(s, acts)
    ensures Safe(s, acts) <==> NoHarm(s, acts)
  {
    SafeFrom(s, acts);
  }

  lemma {:induction false} AloneNoHarm(s: State, acts: seq<Action>, t: nat)
    requires s.pcs.Keys == {t} && Performs(s, acts)
    ensures NoHarm(s, acts)
    decreases |acts|
  {
    if acts != [] {
      assert acts[0].t in s.pcs.Keys;
      assert forall u :: u in s.pcs ==> u in s.pcs.Keys && u == t;
      assert !Harms(s, acts[0]);
      assert Step(s, acts[0]).pcs.Keys == {t};
      hide Possible, Step, Harms;
      AloneNoHarm(Step(s, acts[0]), acts[1..], t);
    }
  }

  /** A thread does not poll while it accepts, so one thread alone never fails. */
  lemma OneThreadIsSafe(s: State, acts: seq<Action>, t: nat)
    requires Initial(s) && s.pcs.Keys == {t} && Performs(s, acts)
    ensures Safe(s, acts)
  {
    AloneNoHarm(s, acts, t);
    SafeIffNoHarm(s, acts);
  }

  // ------------------------------------------------------------------ a run that fails

  /** Thread 0 accepts; thread 1 polls, and the peer's reset arrives between the second and the third lookup. */
  lemma ResetInBetween() returns (s: State, acts: seq<Action>)
    ensures Initial(s) && Performs(s, acts)
    ensures 0 in After(s, acts).pcs && After(s, acts).pcs[0] == Failed(7)
  {
    s := State(map[7 := Open], {7}, map[0 := Outside, 1 := Outside]);
    acts := [Find(0, 7), Test(0), Polls(1, 7, Shut(false)), Endpoints(0)];
    var s1 := Step(s, Find(0, 7));
    var s2 := Step(s1, Test(0));
    var s3 := Step(s2, Polls(1, 7, Shut(false)));
    assert Possible(s3, Endpoints(0)) && Step(s3, Endpoints(0)).pcs[0] == Failed(7);
    assert acts[1..] == [Test(0), Polls(1, 7, Shut(false)), Endpoints(0)];
    assert acts[1..][1..] == [Polls(1, 7, Shut(false)), Endpoints(0)];
    assert acts[1..][1..][1..] == [Endpoints(0)];
    hide Possible, Step;
    assert Performs(s3, [Endpoints(0)]) && After(s3, [Endpoints(0)]) == Step(s3, Endpoints(0));
    assert Performs(s2, acts[1..][1..]) && After(s2, acts[1..][1..]) == Step(s3, Endpoints(0));
    assert Performs(s1, acts[1..]) && After(s1, acts[1..]) == Step(s3, Endpoints(0));
  }
}
