/** The first-in first-out search shared by `bfs`, `set_new_area_number`
    and `reset_visited`: starting from one cell it flags every unflagged
    neighbour that passes the caller's test, visiting left, right, down, up.
    The queue is a sequence; the flags are the returned set `seen`. */
module Traversal {
  import opened Grid
  import opened Paths

  lemma CardRemove(a: set<Pos>, s: set<Pos>, n: Pos)
    requires n in a && n !in s
    ensures |a - (s + {n})| < |a - s|
  {
    assert a - s == (a - (s + {n})) + {n};
  }

  /** Every flagged cell can be reached from `start` through flagged cells
      other than `start`. */
  ghost predicate Connected(seen: set<Pos>, start: Pos)
  {
    forall p :: p in seen ==> Reach(seen - {start}, start, p)
  }

  lemma ConnectedStart(start: Pos)
    ensures Connected({start}, start)
  {
    ReachSelf({}, start);
  }

  lemma ConnectedAdd(seen: set<Pos>, start: Pos, c: Pos, n: Pos)
    requires Connected(seen, start) && c in seen && Adjacent(c, n) && n != start
    ensures Connected(seen + {n}, start)
  {
    forall p | p in seen + {n}
      ensures Reach(seen + {n} - {start}, start, p)
    {
      if p == n {
        ReachMonotone(seen - {start}, seen + {n} - {start}, start, c);
        ReachStep(seen + {n} - {start}, start, c, n);
      } else {
        ReachMonotone(seen - {start}, seen + {n} - {start}, start, p);
      }
    }
  }

  /** Handles one neighbour `n` of the dequeued cell `c`; `added` is what
      goes to the back of the queue. */
  method Offer(b: Board, allowed: set<Pos>, start: Pos, hasTarget: bool, target: Pos,
               c: Pos, n: Pos, seen: set<Pos>)
    returns (hit: bool, seen': set<Pos>, added: seq<Pos>)
    requires b.Valid() && c in seen && start in seen && Adjacent(c, n)
    requires seen <= allowed + {start}
    requires Connected(seen, start)
    requires hasTarget ==> target !in seen
    ensures hit ==> hasTarget && target == n && Reach(allowed, start, target)
    ensures hit ==> seen' == seen
    ensures !hit ==> seen <= seen' <= allowed + {start} && Connected(seen', start)
    ensures !hit ==> (hasTarget ==> target !in seen')
    ensures !hit ==> (b.Contains(n) && n in allowed ==> n in seen')
    ensures !hit ==> Fresh(seen, seen', added) && seen' <= seen + {n}
  {
    hit, seen', added := false, seen, [];
    if b.Contains(n) && n !in seen && n in allowed {
      ConnectedAdd(seen, start, c, n);
      if hasTarget && n == target {
        ReachMonotone(seen + {n} - {start}, allowed, start, n);
        hit := true;
        return;
      }
      seen' := seen + {n};
      added := [n];
    }
  }

  /** Cells newly flagged are exactly the cells added to the queue. */
  ghost predicate Fresh(seen: set<Pos>, seen': set<Pos>, added: seq<Pos>)
  {
    seen <= seen' &&
    (forall i :: 0 <= i < |added| ==> added[i] in seen' && added[i] !in seen) &&
    (forall p :: p in seen' && p !in seen ==> p in added)
  }

  lemma FreshChain(s0: set<Pos>, s1: set<Pos>, s2: set<Pos>, a1: seq<Pos>, a2: seq<Pos>)
    requires Fresh(s0, s1, a1) && Fresh(s1, s2, a2)
    ensures Fresh(s0, s2, a1 + a2)
  {
  }

  /** One turn of the search loop: offers the four neighbours of `c`. */
  method Expand(b: Board, allowed: set<Pos>, start: Pos, hasTarget: bool, target: Pos,
                c: Pos, seen: set<Pos>)
    returns (hit: bool, seen': set<Pos>, added: seq<Pos>)
    requires b.Valid() && c in seen && start in seen
    requires seen <= allowed + {start}
    requires Connected(seen, start)
    requires hasTarget ==> target !in seen
    ensures hit ==> hasTarget && Reach(allowed, start, target)
    ensures !hit ==> seen' <= allowed + {start} && Connected(seen', start)
    ensures !hit ==> (hasTarget ==> target !in seen')
    ensures !hit ==> Fresh(seen, seen', added)
    ensures !hit ==> forall n :: b.Contains(n) && n in allowed && Adjacent(c, n) ==> n in seen'
  {
    var nbrs := [Left(c), Right(c), Down(c), Up(c)];
    hit, seen', added := false, seen, [];
    var i := 0;
    while i < 4
      invariant 0 <= i <= 4
      invariant seen' <= allowed + {start} && Connected(seen', start)
      invariant hasTarget ==> target !in seen'
      invariant Fresh(seen, seen', added)
      invariant forall j :: 0 <= j < i && b.Contains(nbrs[j]) && nbrs[j] in allowed ==> nbrs[j] in seen'
    {
      var h, s', a';
      h, s', a' := Offer(b, allowed, start, hasTarget, target, c, nbrs[i], seen');
      if h {
        hit := true;
        return;
      }
      FreshChain(seen, seen', s', added, a');
      seen', added := s', added + a';
      i := i + 1;
    }
    forall n | b.Contains(n) && n in allowed && Adjacent(c, n)
      ensures n in seen'
    {
      if n == Left(c) {
        assert nbrs[0] == n;
      } else if n == Right(c) {
        assert nbrs[1] == n;
      } else if n == Down(c) {
        assert nbrs[2] == n;
      } else {
        assert nbrs[3] == n;
      }
    }
  }

  /** Searches from `start` through the cells of `allowed`. With a target it
      stops as soon as the target is flagged; `seen` is the set of cells
      flagged when it stops. */
  method Traverse(b: Board, allowed: set<Pos>, start: Pos, hasTarget: bool, target: Pos)
    returns (hit: bool, seen: set<Pos>)
    requires b.Valid() && b.Contains(start)
    requires forall p :: p in allowed ==> b.Contains(p)
    requires hasTarget ==> target != start
    ensures start in seen && seen <= allowed + {start}
    ensures forall p :: p in seen ==> Reach(seen, start, p) && Reach(allowed, start, p)
    ensures hit ==> hasTarget
    ensures hasTarget ==> (hit <==> Reach(allowed, start, target))
    ensures !hit ==> forall p :: Reach(allowed, start, p) <==> p in seen
  {
    seen := {start};
    var q := [start];
    ConnectedStart(start);
    hit := false;
    while |q| > 0
      invariant start in seen && seen <= allowed + {start}
      invariant forall i :: 0 <= i < |q| ==> q[i] in seen
      invariant Connected(seen, start)
      invariant forall c, n :: c in seen && c !in q && n in allowed && Adjacent(c, n) ==> n in seen
      invariant hasTarget ==> target !in seen
      decreases |allowed - seen|, |q|
    {
      var c := q[0];
      var rest := q[1..];
      var seen0 := seen;
      var added;
      hit, seen, added := Expand(b, allowed, start, hasTarget, target, c, seen);
      if hit {
        seen := seen0;
        ConnectedReach(seen, allowed, start);
        return;
      }
      Progress(allowed, seen0, seen, added);
      KeepClosed(b, allowed, seen0, seen, q, added);
      q := rest + added;
    }
    ConnectedReach(seen, allowed, start);
    forall p | Reach(allowed, start, p)
      ensures p in seen
    {
      ClosedHoldsReach(allowed, seen, start, p);
    }
  }

  lemma KeepClosed(b: Board, allowed: set<Pos>, seen0: set<Pos>, seen: set<Pos>, q0: seq<Pos>, added: seq<Pos>)
    requires b.Valid() && |q0| > 0 && (forall p :: p in allowed ==> b.Contains(p))
    requires forall i :: 0 <= i < |q0| ==> q0[i] in seen0
    requires forall c2, n :: c2 in seen0 && c2 !in q0 && n in allowed && Adjacent(c2, n) ==> n in seen0
    requires Fresh(seen0, seen, added)
    requires forall n :: b.Contains(n) && n in allowed && Adjacent(q0[0], n) ==> n in seen
    ensures forall i :: 0 <= i < |q0[1..] + added| ==> (q0[1..] + added)[i] in seen
    ensures forall c2, n :: c2 in seen && c2 !in q0[1..] + added && n in allowed && Adjacent(c2, n) ==> n in seen
  {
    forall c2, n | c2 in seen && c2 !in q0[1..] + added && n in allowed && Adjacent(c2, n)
      ensures n in seen
    {
      if c2 != q0[0] {
        assert c2 in seen0;
        assert c2 !in q0 by {
          assert q0 == [q0[0]] + q0[1..];
        }
      }
    }
  }

  lemma Progress(allowed: set<Pos>, seen: set<Pos>, seen': set<Pos>, added: seq<Pos>)
    requires Fresh(seen, seen', added) && seen' <= allowed + seen
    ensures added == [] ==> seen' == seen
    ensures added != [] ==> |allowed - seen'| < |allowed - seen|
  {
    if added != [] {
      var n := added[0];
      SubsetCard(allowed - seen', allowed - (seen + {n}));
      CardRemove(allowed, seen, n);
    }
  }

  lemma ConnectedReach(seen: set<Pos>, allowed: set<Pos>, start: Pos)
    requires Connected(seen, start) && seen <= allowed + {start}
    ensures forall p :: p in seen ==> Reach(seen, start, p) && Reach(allowed, start, p)
  {
    forall p | p in seen
      ensures Reach(seen, start, p) && Reach(allowed, start, p)
    {
      ReachMonotone(seen - {start}, seen, start, p);
      ReachMonotone(seen - {start}, allowed, start, p);
    }
  }
}
