/** A finite set of identifiers in increasing order, as ORDER BY id yields it. */
module Ordering {

  predicate IsLeast(s: set<int>, m: int) {
    m in s && forall x :: x in s ==> m <= x
  }

  lemma Inhabited(s: set<int>)
    ensures s != {} ==> exists m :: m in s
  {
    if forall m :: m !in s {
      assert s == {};
    }
  }

  /** The least element, found from any element and the least of the others. */
  lemma {:induction false} FindLeast(s: set<int>) returns (k: int)
    requires s != {}
    ensures IsLeast(s, k)
  {
    Inhabited(s);
    var m :| m in s;
    var others := s - {m};
    k := m;
    if others != {} {
      var n := FindLeast(others);
      k := if n < m then n else m;
    }
    forall x | x in s
      ensures k <= x
    {
      if x != m {
        assert x in others;
      }
    }
  }

  lemma LeastExists(s: set<int>)
    requires s != {}
    ensures exists m :: IsLeast(s, m)
  {
    var k := FindLeast(s);
  }

  function Least(s: set<int>): (m: int)
    requires s != {}
    ensures IsLeast(s, m)
  {
    LeastExists(s);
    var m :| IsLeast(s, m);
    m
  }

  function Ordered(s: set<int>): (r: seq<int>)
    ensures forall x :: x in s <==> x in r
    ensures forall i :: 0 <= i < |r| ==> r[i] in s
    ensures forall i, j :: 0 <= i < j < |r| ==> r[i] < r[j]
  {
    if s == {} then [] else [Least(s)] + Ordered(s - {Least(s)})
  }
}
