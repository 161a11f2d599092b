/** Ascending enumeration of row-id sets, the iteration order of the source's ordered collections. */
module Ascending {

  lemma {:induction false} FindMinimum(s: set<nat>) returns (m: nat)
    requires s != {}
    ensures m in s && forall y :: y in s ==> m <= y
  {
    m :| m in s;
    var rest := s - {m};
    if rest != {} {
      var m' := FindMinimum(rest);
      assert forall y :: y in s ==> y == m || y in rest;
      m := if m' < m then m' else m;
    } else {
      assert forall y :: y in s ==> y == m || y in rest;
    }
  }

  lemma HasMinimum(s: set<nat>)
    requires s != {}
    ensures exists m: nat :: m in s && forall y :: y in s ==> m <= y
  {
    var m := FindMinimum(s);
  }

  function Minimum(s: set<nat>): (m: nat)
    requires s != {}
    ensures m in s && forall y :: y in s ==> m <= y
  {
    HasMinimum(s);
    var m: nat :| m in s && forall y :: y in s ==> m <= y;
    m
  }

  ghost predicate StrictlyAscending(q: seq<nat>) {
    forall i, j :: 0 <= i < j < |q| ==> q[i] < q[j]
  }

  /** The members of a set, smallest first. */
  function Sorted(s: set<nat>): (q: seq<nat>)
    ensures StrictlyAscending(q)
    ensures forall x :: x in q <==> x in s
  {
    if s == {} then []
    else
      var m := Minimum(s);
      var rest := Sorted(s - {m});
      assert forall i :: 0 <= i < |rest| ==> rest[i] in rest;
      [m] + rest
  }

  /** An ascending sequence is determined by its members. */
  lemma {:induction false} AscendingUnique(p: seq<nat>, q: seq<nat>)
    requires StrictlyAscending(p) && StrictlyAscending(q)
    requires forall x :: x in p <==> x in q
    ensures p == q
  {
    assert forall i :: 0 <= i < |p| ==> p[i] in p;
    assert forall i :: 0 <= i < |q| ==> q[i] in q;
    if p != [] {
      assert p[0] == q[0];
      forall x ensures x in p[1..] <==> x in q[1..] {
        if x in p[1..] { assert x in p; assert x in q; assert x != q[0]; }
        if x in q[1..] { assert x in q; assert x in p; assert x != p[0]; }
      }
      AscendingUnique(p[1..], q[1..]);
    }
  }

  /** The subsequence of the members that satisfy a predicate. */
  function Select(q: seq<nat>, keep: nat -> bool): (r: seq<nat>)
    ensures forall x :: x in r <==> x in q && keep(x)
  {
    if q == [] then []
    else if keep(q[0]) then [q[0]] + Select(q[1..], keep) else Select(q[1..], keep)
  }

  lemma {:induction false} SelectAscending(q: seq<nat>, keep: nat -> bool)
    requires StrictlyAscending(q)
    ensures StrictlyAscending(Select(q, keep))
  {
    if q != [] {
      SelectAscending(q[1..], keep);
      var rest := Select(q[1..], keep);
      forall i | 0 <= i < |rest| ensures q[0] < rest[i] {
        assert rest[i] in rest;
        assert rest[i] in q[1..];
      }
    }
  }

  /** Filtering two ascending enumerations that agree on everything the filter keeps gives one sequence. */
  lemma SelectAgrees(p: seq<nat>, q: seq<nat>, keep: nat -> bool)
    requires StrictlyAscending(p) && StrictlyAscending(q)
    requires forall x :: keep(x) ==> (x in p <==> x in q)
    ensures Select(p, keep) == Select(q, keep)
  {
    SelectAscending(p, keep);
    SelectAscending(q, keep);
    AscendingUnique(Select(p, keep), Select(q, keep));
  }
}
