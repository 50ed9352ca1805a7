/**
 * Python's list comprehension [f(x) for x in xs if keep(x)], and what it means: the
 * images of exactly the kept elements, in their order.
 */
module Comprehensions {

  function Filter<A, B>(xs: seq<A>, keep: A -> bool, f: A -> B): (r: seq<B>)
    ensures |r| <= |xs|
  {
    if xs == [] then []
    else Filter(xs[..|xs| - 1], keep, f) + if keep(xs[|xs| - 1]) then [f(xs[|xs| - 1])] else []
  }

  /** The step of a loop over xs that appends f(x) for every kept x. */
  lemma FilterStep<A, B>(xs: seq<A>, i: nat, keep: A -> bool, f: A -> B)
    requires i < |xs|
    ensures Filter(xs[..i + 1], keep, f) == Filter(xs[..i], keep, f) + if keep(xs[i]) then [f(xs[i])] else []
  {
    assert xs[..i + 1][..i] == xs[..i];
  }

  /** The positions of the kept elements of xs, in increasing order. */
  function Positions<A>(xs: seq<A>, keep: A -> bool): (pos: seq<nat>)
    ensures forall a :: 0 <= a < |pos| ==> pos[a] < |xs|
  {
    if xs == [] then []
    else Positions(xs[..|xs| - 1], keep) + if keep(xs[|xs| - 1]) then [|xs| - 1] else []
  }

  lemma {:induction false} PositionsKept<A>(xs: seq<A>, keep: A -> bool)
    ensures forall a :: 0 <= a < |Positions(xs, keep)| ==> keep(xs[Positions(xs, keep)[a]])
  {
    if xs != [] {
      var init := xs[..|xs| - 1];
      PositionsKept(init, keep);
      var p := Positions(init, keep);
      assert forall a :: 0 <= a < |p| ==> xs[p[a]] == init[p[a]];
    }
  }

  lemma {:induction false} PositionsIncreasing<A>(xs: seq<A>, keep: A -> bool)
    ensures forall a, b :: 0 <= a < b < |Positions(xs, keep)| ==> Positions(xs, keep)[a] < Positions(xs, keep)[b]
  {
    if xs != [] {
      PositionsIncreasing(xs[..|xs| - 1], keep);
    }
  }

  lemma {:induction false} PositionsComplete<A>(xs: seq<A>, keep: A -> bool)
    ensures forall i :: 0 <= i < |xs| && keep(xs[i]) ==> i in Positions(xs, keep)
  {
    if xs != [] {
      var init := xs[..|xs| - 1];
      PositionsComplete(init, keep);
      forall i | 0 <= i < |init| && keep(xs[i]) ensures i in Positions(init, keep) {
        assert init[i] == xs[i];
      }
    }
  }

  lemma {:induction false} FilterAtPositions<A, B>(xs: seq<A>, keep: A -> bool, f: A -> B)
    ensures |Positions(xs, keep)| == |Filter(xs, keep, f)|
    ensures forall a :: 0 <= a < |Positions(xs, keep)| ==> Filter(xs, keep, f)[a] == f(xs[Positions(xs, keep)[a]])
  {
    if xs != [] {
      var init := xs[..|xs| - 1];
      FilterAtPositions(init, keep, f);
      var p := Positions(init, keep);
      assert forall a :: 0 <= a < |p| ==> xs[p[a]] == init[p[a]];
    }
  }

  /**
   * The comprehension picks the kept positions of xs in increasing order: pos lists them,
   * every kept position is among them, and the a-th result is f of the a-th kept element.
   */
  lemma FilterPositions<A, B>(xs: seq<A>, keep: A -> bool, f: A -> B) returns (pos: seq<nat>)
    ensures |pos| == |Filter(xs, keep, f)|
    ensures forall a :: 0 <= a < |pos| ==> pos[a] < |xs| && keep(xs[pos[a]]) && Filter(xs, keep, f)[a] == f(xs[pos[a]])
    ensures forall a, b :: 0 <= a < b < |pos| ==> pos[a] < pos[b]
    ensures forall i :: 0 <= i < |xs| && keep(xs[i]) ==> i in pos
  {
    pos := Positions(xs, keep);
    PositionsKept(xs, keep);
    PositionsIncreasing(xs, keep);
    PositionsComplete(xs, keep);
    FilterAtPositions(xs, keep, f);
  }

  /** An element is in the result exactly when it is the image of a kept element. */
  lemma {:induction false} FilterMembers<A, B>(xs: seq<A>, keep: A -> bool, f: A -> B, y: B)
    ensures y in Filter(xs, keep, f) <==> exists i :: 0 <= i < |xs| && keep(xs[i]) && y == f(xs[i])
  {
    var pos := FilterPositions(xs, keep, f);
    var r := Filter(xs, keep, f);
    if y in r {
      var a :| 0 <= a < |r| && r[a] == y;
      assert keep(xs[pos[a]]) && y == f(xs[pos[a]]);
    }
    if exists i :: 0 <= i < |xs| && keep(xs[i]) && y == f(xs[i]) {
      var i :| 0 <= i < |xs| && keep(xs[i]) && y == f(xs[i]);
      assert i in pos;
      var a :| 0 <= a < |pos| && pos[a] == i;
      assert r[a] == y;
    }
  }

  /** Two sequences whose elements are kept at the same positions have the same kept positions. */
  lemma {:induction false} PositionsAgree<A, C>(xs: seq<A>, keep: A -> bool, ys: seq<C>, keep': C -> bool)
    requires |xs| == |ys| && forall i :: 0 <= i < |xs| ==> keep(xs[i]) == keep'(ys[i])
    ensures Positions(xs, keep) == Positions(ys, keep')
  {
    if xs != [] {
      PositionsAgree(xs[..|xs| - 1], keep, ys[..|ys| - 1], keep');
    }
  }

  /** Two comprehensions over the same elements that keep the same ones have the same length. */
  lemma {:induction false} FilterSameKeep<A, B, C>(xs: seq<A>, keep: A -> bool, f: A -> B, keep': A -> bool, g: A -> C)
    requires forall i :: 0 <= i < |xs| ==> keep(xs[i]) == keep'(xs[i])
    ensures |Filter(xs, keep, f)| == |Filter(xs, keep', g)|
  {
    if xs != [] {
      FilterSameKeep(xs[..|xs| - 1], keep, f, keep', g);
    }
  }
}
