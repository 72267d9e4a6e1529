/**
 * Row ids of a table turned into a listing: the order in which a query
 * without an ORDER BY is modelled (ascending primary key).
 */
module Keys {

  /** Every non-empty finite set of integers has a least element. */
  lemma {:induction false} MinExists(s: set<int>)
    requires s != {}
    ensures exists m :: m in s && forall y :: y in s ==> m <= y
    decreases |s|
  {
    if forall z :: z !in s { assert false; }
    var x :| x in s;
    var t := s - {x};
    var w := x;
    if t != {} {
      MinExists(t);
      var m :| m in t && forall y :: y in t ==> m <= y;
      w := if x < m then x else m;
    }
    forall y | y in s
      ensures w <= y
    {
      if y != x { assert y in t; }
    }
    assert w in s;
  }

  /** The least element of a non-empty set of integers. */
  function Least(s: set<int>): (m: int)
    requires s != {}
    ensures m in s && forall y :: y in s ==> m <= y
  {
    MinExists(s);
    var m :| m in s && forall y :: y in s ==> m <= y;
    m
  }

  /** The row ids of `s` as a listing in strictly ascending id order. */
  function Ids(s: set<int>): (r: seq<int>)
    ensures forall i, j :: 0 <= i < j < |r| ==> r[i] < r[j]
    ensures forall x :: x in r <==> x in s
    ensures |r| == |s|
    decreases |s|
  {
    if s == {} then []
    else
      var m := Least(s);
      var t := s - {m};
      assert |t| == |s| - 1;
      var rest := Ids(t);
      assert forall i :: 0 <= i < |rest| ==> m < rest[i];
      [m] + rest
  }
}
