/**
 The SYN queue of a listening port: handles in arrival order, from which `accept` takes the first
 connected one with `swap_remove_front`, which moves the front handle into the gap.
 */
module SynQueue {
  const LISTEN_QUEUE_SIZE: nat := 32

  type Handle = nat

  /** Index of the first handle in `connected`, or the length. */
  function FirstConnected(q: seq<Handle>, connected: set<Handle>): (i: nat)
    ensures i <= |q|
    ensures forall j :: 0 <= j < i ==> q[j] !in connected
    ensures i < |q| ==> q[i] in connected
    decreases |q|
  {
    if q == [] || q[0] in connected then 0
    else
      var i := FirstConnected(q[1..], connected);
      assert forall j :: 0 < j < i + 1 ==> q[j] == q[1..][j - 1];
      i + 1
  }

  /** Swap with the front, then pop the front. */
  function SwapRemoveFront(q: seq<Handle>, i: nat): (r: seq<Handle>)
    requires i < |q|
    ensures |r| == |q| - 1
  {
    q[i := q[0]][1..]
  }

  /** The front handle fills the gap and every other handle moves up one place. */
  lemma SwapRemoveAt(q: seq<Handle>, i: nat, j: nat)
    requires i < |q| && j + 1 < |q|
    ensures SwapRemoveFront(q, i)[j] == if j + 1 == i then q[0] else q[j + 1]
  {
  }

  /** What is left is the same multiset without the removed handle. */
  lemma SwapRemoveMultiset(q: seq<Handle>, i: nat)
    requires i < |q|
    ensures multiset(q) == multiset(SwapRemoveFront(q, i)) + multiset{q[i]}
  {
    if i == 0 {
      assert q == [q[0]] + q[1..];
      assert q[i := q[0]] == q;
    } else {
      var a, b := q[1..i], q[i + 1..];
      assert q == [q[0]] + a + [q[i]] + b;
      assert SwapRemoveFront(q, i) == a + [q[0]] + b;
    }
  }

  /** The connected handles, in queue order. */
  function Ready(q: seq<Handle>, connected: set<Handle>): seq<Handle>
    decreases |q|
  {
    if q == [] then []
    else (if q[0] in connected then [q[0]] else []) + Ready(q[1..], connected)
  }

  lemma {:induction false} SkipUnready(a: seq<Handle>, b: seq<Handle>, connected: set<Handle>)
    requires forall j :: 0 <= j < |a| ==> a[j] !in connected
    ensures Ready(a + b, connected) == Ready(b, connected)
    decreases |a|
  {
    if a == [] {
      assert a + b == b;
    } else {
      assert (a + b)[1..] == a[1..] + b && (a + b)[0] == a[0];
      SkipUnready(a[1..], b, connected);
      assert Ready(a + b, connected) == [] + Ready(a[1..] + b, connected);
    }
  }

  lemma ReadyFirst(h: Handle, b: seq<Handle>, connected: set<Handle>)
    requires h in connected
    ensures Ready([h] + b, connected) == [h] + Ready(b, connected)
  {
    assert ([h] + b)[1..] == b;
  }

  /** What is in front of the removed handle, after the front handle has moved into the gap. */
  function Rotated(q: seq<Handle>, i: nat): seq<Handle>
    requires i <= |q|
  {
    if i == 0 then [] else q[1..i] + [q[0]]
  }

  lemma SwapRemoveSplit(q: seq<Handle>, i: nat)
    requires i < |q|
    ensures SwapRemoveFront(q, i) == Rotated(q, i) + q[i + 1..]
  {
  }

  lemma RotatedUnready(q: seq<Handle>, i: nat, connected: set<Handle>)
    requires i <= |q| && forall j :: 0 <= j < i ==> q[j] !in connected
    ensures forall j :: 0 <= j < |Rotated(q, i)| ==> Rotated(q, i)[j] !in connected
  {
  }

  /** The connected handles of a queue with unready handles in front of a connected one. */
  lemma FrontChanged(a: seq<Handle>, a': seq<Handle>, h: Handle, b: seq<Handle>, connected: set<Handle>)
    requires h in connected
    requires forall j :: 0 <= j < |a| ==> a[j] !in connected
    requires forall j :: 0 <= j < |a'| ==> a'[j] !in connected
    ensures Ready(a + ([h] + b), connected) == [h] + Ready(a' + b, connected)
  {
    hide Ready;
    SkipUnready(a', b, connected);
    ReadyFirst(h, b, connected);
    SkipUnready(a, [h] + b, connected);
  }

  lemma SplitAt(q: seq<Handle>, i: nat)
    requires i < |q|
    ensures q == q[..i] + ([q[i]] + q[i + 1..])
  {
  }

  /** Although the queue is reordered, accepting takes the first connected handle and the others keep their order. */
  lemma AcceptKeepsOrder(q: seq<Handle>, connected: set<Handle>)
    requires FirstConnected(q, connected) < |q|
    ensures var i := FirstConnected(q, connected);
            Ready(q, connected) == [q[i]] + Ready(SwapRemoveFront(q, i), connected)
  {
    var i := FirstConnected(q, connected);
    hide Ready, SwapRemoveFront, FirstConnected, Rotated;
    RotatedUnready(q, i, connected);
    FrontChanged(q[..i], Rotated(q, i), q[i], q[i + 1..], connected);
    SwapRemoveSplit(q, i);
    SplitAt(q, i);
  }
}
