/** Listing the members of a finite set of integers in ascending order: the
    order in which the tracker's sessions are written out. */
module SetOrder {

  lemma {:induction false} MinExists(s: set<int>)
    requires s != {}
    ensures exists m :: m in s && forall x | x in s :: m <= x
    decreases |s|
  {
    var y := PickOne(s);
    var rest := s - {y};
    if rest == {} {
      assert s == {y};
    } else {
      MinExists(rest);
      var m :| m in rest && forall x | x in rest :: m <= x;
      var least := if y < m then y else m;
      forall x | x in s
        ensures least <= x
      {
        if x != y {
          assert x in rest;
        }
      }
    }
  }

  /** Some member of a non-empty set. */
  lemma PickOne(s: set<int>) returns (y: int)
    requires s != {}
    ensures y in s
  {
    if forall e :: e !in s {
      // then `s` would equal the empty set
      assert false;
    }
    var e :| e in s;
    y := e;
  }

  /** The least member of a non-empty set. */
  function Min(s: set<int>): (m: int)
    requires s != {}
    ensures m in s
    ensures forall x | x in s :: m <= x
  {
    MinExists(s);
    var m :| m in s && forall x | x in s :: m <= x;
    m
  }

  predicate StrictlyIncreasing(xs: seq<int>)
  {
    forall i, j | 0 <= i < j < |xs| :: xs[i] < xs[j]
  }

  /** The members of `s`, each once, smallest first. */
  function Sorted(s: set<int>): (xs: seq<int>)
    ensures |xs| == |s|
    ensures forall x :: x in xs <==> x in s
    ensures StrictlyIncreasing(xs)
    decreases |s|
  {
    if s == {} then
      []
    else
      var m := Min(s);
      var rest := Sorted(s - {m});
      assert forall i | 0 <= i < |rest| :: m < rest[i];
      IncreasingCons(m, rest);
      [m] + rest
  }

  /** A value below every element of an increasing list extends it. */
  lemma IncreasingCons(m: int, xs: seq<int>)
    requires StrictlyIncreasing(xs)
    requires forall i | 0 <= i < |xs| :: m < xs[i]
    ensures StrictlyIncreasing([m] + xs)
  {
    var ys := [m] + xs;
    forall i, j | 0 <= i < j < |ys|
      ensures ys[i] < ys[j]
    {
      assert ys[j] == xs[j - 1];
      if i > 0 {
        assert ys[i] == xs[i - 1];
      }
    }
  }
}
