/** Ordered iteration: the keys of a map in ascending order, and runs of pages. */
module Ordering {
  import opened Base

  ghost predicate Ascending(ks: seq<nat>) {
    forall i, j :: 0 <= i < j < |ks| ==> ks[i] < ks[j]
  }

  function Elements(ks: seq<nat>): set<nat> {
    set x | x in ks
  }

  lemma InElements(ks: seq<nat>)
    ensures forall x :: x in ks <==> x in Elements(ks)
  {
  }

  lemma {:induction false} MinExists(s: set<nat>)
    requires s != {}
    ensures exists x :: x in s && forall y :: y in s ==> x <= y
    decreases s
  {
    var x :| x in s;
    var rest := s - {x};
    if rest == {} {
      assert s == {x};
    } else {
      MinExists(rest);
      var z :| z in rest && forall w :: w in rest ==> z <= w;
      var least := if x < z then x else z;
      assert forall w :: w in s ==> w == x || w in rest;
      assert least in s && forall w :: w in s ==> least <= w;
    }
  }

  function Least(s: set<nat>): (x: nat)
    requires s != {}
    ensures x in s && forall y :: y in s ==> x <= y
  {
    MinExists(s);
    var x :| x in s && forall y :: y in s ==> x <= y;
    x
  }

  /** The keys of an ordered map, in the order in which iterating over it yields them. */
  function Ordered(s: set<nat>): (ks: seq<nat>)
    ensures Ascending(ks) && Elements(ks) == s
    decreases s
  {
    if s == {} then []
    else
      var x := Least(s);
      var rest := Ordered(s - {x});
      assert forall y :: y in rest ==> y in Elements(rest);
      var ks := [x] + rest;
      assert forall y :: y in s ==> y == x || y in Elements(rest);
      ks
  }

  /** The pages that the page iterator yields between two aligned addresses. */
  function PagesBetween(lo: nat, hi: nat): (ps: seq<nat>)
    requires lo % PAGE_SIZE == 0 && hi % PAGE_SIZE == 0 && lo <= hi
    ensures |ps| == (hi - lo) / PAGE_SIZE
    ensures forall i :: 0 <= i < |ps| ==> ps[i] == lo + i * PAGE_SIZE
  {
    seq((hi - lo) / PAGE_SIZE, i requires 0 <= i => lo + i * PAGE_SIZE)
  }

  ghost predicate AlignedPages(ps: seq<nat>) {
    Ascending(ps) && forall i :: 0 <= i < |ps| ==> ps[i] % PAGE_SIZE == 0
  }
}
