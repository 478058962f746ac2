/**
  Ascending enumeration of integer keys. SQLite scans `files` in rowid order when a query
  has no ORDER BY, so result lists are modelled as ascending file ids.
 */
module Ordering {

  predicate Increasing(xs: seq<int>) {
    forall i, j | 0 <= i < j < |xs| :: xs[i] < xs[j]
  }

  /** A set is empty or has a member. */
  lemma EmptyOrMember(s: set<int>)
    ensures s == {} || exists m :: m in s
  {
    if !(exists m :: m in s) {
      assert forall y :: y in s <==> y in {};
    }
  }

  /** Every non-empty finite set of integers has a least element. */
  lemma {:induction false} HasMin(s: set<int>)
    requires s != {}
    ensures exists m :: m in s && forall x | x in s :: m <= x
    decreases s
  {
    EmptyOrMember(s);
    var x :| x in s;
    if s != {x} {
      var rest := s - {x};
      HasMin(rest);
      var m :| m in rest && forall y | y in rest :: m <= y;
      var least := if x < m then x else m;
      forall y | y in s ensures least <= y {
        if y != x {
          assert y in rest;
        }
      }
    }
  }

  /** The least element of a non-empty set. */
  function MinOf(s: set<int>): (m: int)
    requires s != {}
    ensures m in s
    ensures forall x | x in s :: m <= x
  {
    HasMin(s);
    var m :| m in s && forall x | x in s :: m <= x;
    m
  }

  /** The elements of `s` in ascending order. */
  function SortedKeys(s: set<int>): (ks: seq<int>)
    ensures Increasing(ks)
    ensures forall x :: x in ks <==> x in s
    ensures |ks| == |s|
    decreases s
  {
    if s == {} then []
    else
      var m := MinOf(s);
      var rest := SortedKeys(s - {m});
      assert forall x | x in rest :: m < x;
      [m] + rest
  }

  /** The elements of `ids` that satisfy `keep`, in their original order. */
  function Select(ids: seq<int>, keep: int -> bool): (r: seq<int>)
    ensures forall x :: x in r <==> x in ids && keep(x)
    ensures Increasing(ids) ==> Increasing(r)
    decreases |ids|
  {
    if ids == [] then []
    else
      var rest := Select(ids[1..], keep);
      if keep(ids[0]) then
        assert Increasing(ids) ==> Increasing([ids[0]] + rest) by {
          if Increasing(ids) {
            assert Increasing(ids[1..]);
            forall x | x in rest ensures ids[0] < x {
              var j :| 0 <= j < |ids[1..]| && ids[1..][j] == x;
              assert ids[j + 1] == x;
            }
            var r := [ids[0]] + rest;
            forall i, j | 0 <= i < j < |r| ensures r[i] < r[j] {
              assert r[j] == rest[j - 1] && rest[j - 1] in rest;
              if i > 0 {
                assert r[i] == rest[i - 1];
              }
            }
          }
        }
        [ids[0]] + rest
      else rest
  }
}
