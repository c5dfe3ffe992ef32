/** Reachability on the board by 4-adjacent steps through a set of cells,
    the notion every breadth-first search of the engine decides. */
module Paths {
  import opened Grid

  /** `w` is a walk by 4-adjacent steps whose cells after the first all lie
      in `s` (the first cell need not). */
  ghost predicate WalkIn(s: set<Pos>, w: seq<Pos>)
  {
    |w| > 0 && forall i :: 1 <= i < |w| ==> w[i] in s && Adjacent(w[i - 1], w[i])
  }

  /** `b` can be reached from `a` by stepping through cells of `s`. */
  ghost predicate Reach(s: set<Pos>, a: Pos, b: Pos)
  {
    exists w :: WalkIn(s, w) && w[0] == a && w[|w| - 1] == b
  }

  /** Every cell of `s` adjacent to a cell of `seen` is in `seen`. */
  ghost predicate Closed(s: set<Pos>, seen: set<Pos>)
  {
    forall c, n :: c in seen && n in s && Adjacent(c, n) ==> n in seen
  }

  lemma ReachSelf(s: set<Pos>, a: Pos)
    ensures Reach(s, a, a)
  {
    assert WalkIn(s, [a]);
  }

  lemma WalkMonotone(s: set<Pos>, t: set<Pos>, w: seq<Pos>)
    requires WalkIn(s, w) && s <= t
    ensures WalkIn(t, w)
  {
  }

  lemma ReachMonotone(s: set<Pos>, t: set<Pos>, a: Pos, b: Pos)
    requires Reach(s, a, b) && s <= t
    ensures Reach(t, a, b)
  {
    var w :| WalkIn(s, w) && w[0] == a && w[|w| - 1] == b;
    WalkMonotone(s, t, w);
  }

  lemma ReachStep(s: set<Pos>, a: Pos, b: Pos, c: Pos)
    requires Reach(s, a, b) && c in s && Adjacent(b, c)
    ensures Reach(s, a, c)
  {
    var w :| WalkIn(s, w) && w[0] == a && w[|w| - 1] == b;
    assert WalkIn(s, w + [c]);
  }

  /** A walk ends at its start or inside the set it steps through. */
  lemma ReachEnd(s: set<Pos>, a: Pos, b: Pos)
    requires Reach(s, a, b)
    ensures b == a || b in s
  {
    var w :| WalkIn(s, w) && w[0] == a && w[|w| - 1] == b;
    if |w| > 1 {
      assert w[|w| - 1] in s;
    }
  }

  /** A set that holds `a` and is closed under steps through `s` holds
      every cell reachable from `a` through `s`. */
  lemma {:induction false} ClosedHoldsReach(s: set<Pos>, seen: set<Pos>, a: Pos, b: Pos)
    requires a in seen && Closed(s, seen) && Reach(s, a, b)
    ensures b in seen
  {
    var w :| WalkIn(s, w) && w[0] == a && w[|w| - 1] == b;
    WalkPrefixIn(s, seen, w, |w| - 1);
  }

  lemma {:induction false} WalkPrefixIn(s: set<Pos>, seen: set<Pos>, w: seq<Pos>, k: nat)
    requires WalkIn(s, w) && w[0] in seen && Closed(s, seen) && k < |w|
    ensures w[k] in seen
    decreases k
  {
    if k > 0 {
      WalkPrefixIn(s, seen, w, k - 1);
      assert w[k] in s && Adjacent(w[k - 1], w[k]);
    }
  }

  /** A walk runs backwards when both its ends lie in `s`. */
  lemma ReachReverse(s: set<Pos>, a: Pos, b: Pos)
    requires Reach(s, a, b) && a in s
    ensures Reach(s, b, a)
  {
    var w :| WalkIn(s, w) && w[0] == a && w[|w| - 1] == b;
    var r := seq(|w|, i requires 0 <= i < |w| => w[|w| - 1 - i]);
    forall i | 1 <= i < |r|
      ensures r[i] in s && Adjacent(r[i - 1], r[i])
    {
      AdjacentSymmetric(w[|w| - 1 - i], w[|w| - i]);
    }
    assert WalkIn(s, r);
  }
}
