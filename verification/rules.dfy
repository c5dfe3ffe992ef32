/** The invariants the move operations keep: the field counters agree with
    the board, every count of free neighbouring cells is exact, and adjacent
    cells of one player share an area id. Conservation of cells follows from the counters. */
module Rules {
  import opened Grid
  import opened Paths
  import opened Bfs
  import opened State
  import opened Areas
  import opened Adjacency

  /** `free_fields` counts the unclaimed cells and `busy_fields` each
      player's cells. */
  ghost predicate Counts(g: Game)
    requires Valid(g)
  {
    g.freeFields == |g.board.CellsOf(0)| &&
    forall q :: 1 <= q <= g.players ==> g.ledgers[q].busy == |g.board.CellsOf(q)|
  }

  /** Adjacent cells of one player carry the same area id. */
  ghost predicate Consistent(b: Board)
    requires b.Valid()
  {
    forall u, v ::
      (b.Contains(u) && b.Contains(v) && Adjacent(u, v) &&
       b.At(u).owner >= 1 && b.At(u).owner == b.At(v).owner) ==> b.At(u).area == b.At(v).area
  }

  /** `Consistent` for the pairs that avoid `p`. */
  ghost predicate ConsistentAway(b: Board, p: Pos)
    requires b.Valid()
  {
    forall u, v ::
      (b.Contains(u) && b.Contains(v) && Adjacent(u, v) && u != p && v != p &&
       b.At(u).owner >= 1 && b.At(u).owner == b.At(v).owner) ==> b.At(u).area == b.At(v).area
  }

  /** No player holds more than `max_areas` areas. */
  ghost predicate Capped(g: Game)
    requires Valid(g)
  {
    forall q :: 1 <= q <= g.players ==> g.ledgers[q].currentAreas <= g.maxAreas
  }

  /** What `gamma_new` establishes and every successful move keeps. */
  ghost predicate Invariant(g: Game)
  {
    Valid(g) && Counts(g) && CacheExact(g) && Consistent(g.board)
  }

  /** Busy fields of players `1..k`. */
  function BusyTotal(ls: seq<Ledger>, k: nat): nat
    requires k < |ls|
  {
    if k == 0 then 0 else BusyTotal(ls, k - 1) + ls[k].busy
  }

  /** Cells whose owner is at most `k`. */
  function OwnedUpTo(b: Board, k: nat): set<Pos>
    requires b.Valid()
  {
    set p | p in b.AllPos() && b.At(p).owner <= k
  }

  lemma {:induction false} OwnedUpToCard(g: Game, k: nat)
    requires Valid(g) && Counts(g) && k <= g.players
    ensures |OwnedUpTo(g.board, k)| == g.freeFields + BusyTotal(g.ledgers, k)
  {
    var b := g.board;
    if k == 0 {
      assert OwnedUpTo(b, 0) == b.CellsOf(0);
    } else {
      OwnedUpToCard(g, k - 1);
      OwnedUpToSplit(b, k);
      var below, mine := OwnedUpTo(b, k - 1), b.CellsOf(k);
      assert below * mine == {};
      assert |OwnedUpTo(b, k)| == |below| + |mine|;
      assert g.ledgers[k].busy == |mine|;
    }
  }

  /** The cells owned up to `k` are those owned up to `k - 1` and `k`'s. */
  lemma OwnedUpToSplit(b: Board, k: nat)
    requires b.Valid() && k >= 1
    ensures OwnedUpTo(b, k) == OwnedUpTo(b, k - 1) + b.CellsOf(k)
    ensures OwnedUpTo(b, k - 1) !! b.CellsOf(k)
  {
    forall p | p in OwnedUpTo(b, k) ensures p in OwnedUpTo(b, k - 1) + b.CellsOf(k) {
      assert b.At(p).owner < k || b.OwnedBy(p, k);
    }
  }

  /** `free_fields + Σ busy_fields == width * height`. */
  lemma Conservation(g: Game)
    requires Valid(g) && Counts(g)
    ensures g.freeFields + BusyTotal(g.ledgers, g.players) == g.board.width * g.board.height
  {
    OwnedUpToCard(g, g.players);
    AllPosCard(g.board);
    assert OwnedUpTo(g.board, g.players) == g.board.AllPos() by {
      forall p | p in g.board.AllPos() ensures p in OwnedUpTo(g.board, g.players) {
        ValidCell(g, p);
      }
    }
  }

  /** A neighbour of `p` owned by `player` is merged. */
  lemma NeighbourMerged(b: Board, player: nat, p: Pos, n: Pos)
    requires b.Valid() && b.OwnedBy(n, player) && Adjacent(p, n)
    ensures n in Merged(b, player, p)
  {
    ReachSelf(b.CellsOf(player), n);
  }

  /** The merged cells are closed under adjacency among `player`'s cells. */
  lemma MergedClosed(b: Board, player: nat, p: Pos, u: Pos, v: Pos)
    requires b.Valid() && u in Merged(b, player, p) && Adjacent(u, v) && b.OwnedBy(v, player)
    ensures v in Merged(b, player, p)
  {
    var d :| d in {Left(p), Right(p), Down(p), Up(p)} && u in Reached(b, player, d);
    ReachStep(b.CellsOf(player), d, u, v);
  }

  /** After a merge around `p` relabels the merged cells with `s`, pairs away
      from `p` still agree, and `player`'s neighbours of `p` carry `s`. */
  lemma MergeKeepsConsistent(b0: Board, b1: Board, player: nat, p: Pos, s: nat)
    requires b0.Valid() && b1.Valid() && b0.Contains(p) && SameOwners(b0, b1)
    requires ConsistentAway(b0, p)
    requires forall q :: b0.Contains(q) ==>
      b1.At(q) == if q == p then Cell(b0.At(p).owner, s)
                  else if q in Merged(b0, player, p) then Cell(player, s)
                  else b0.At(q)
    ensures ConsistentAway(b1, p)
    ensures forall n :: b1.Contains(n) && Adjacent(p, n) && b1.At(n).owner == player ==> b1.At(n).area == s
  {
    MergedOwned(b0, player, p);
    forall u, v | b1.Contains(u) && b1.Contains(v) && Adjacent(u, v) && u != p && v != p &&
      b1.At(u).owner >= 1 && b1.At(u).owner == b1.At(v).owner
      ensures b1.At(u).area == b1.At(v).area
    {
      AdjacentSymmetric(u, v);
      if u in Merged(b0, player, p) {
        MergedClosed(b0, player, p, u, v);
      } else if v in Merged(b0, player, p) {
        MergedClosed(b0, player, p, v, u);
      }
    }
    forall n | b1.Contains(n) && Adjacent(p, n) && b1.At(n).owner == player
      ensures b1.At(n).area == s
    {
      NeighbourMerged(b0, player, p, n);
    }
  }

  /** Giving `p` to `o` keeps ids consistent when `o`'s neighbours of `p`
      already carry `p`'s id. */
  lemma ClaimKeepsConsistent(b: Board, p: Pos, o: nat)
    requires b.Valid() && b.Contains(p) && ConsistentAway(b, p)
    requires forall n :: b.Contains(n) && Adjacent(p, n) && b.At(n).owner == o ==> b.At(n).area == b.At(p).area
    ensures Consistent(b.SetOwner(p, o))
  {
    var b' := b.SetOwner(p, o);
    forall u, v | b'.Contains(u) && b'.Contains(v) && Adjacent(u, v) &&
      b'.At(u).owner >= 1 && b'.At(u).owner == b'.At(v).owner
      ensures b'.At(u).area == b'.At(v).area
    {
      AdjacentSymmetric(u, v);
    }
  }

  lemma ConsistentIsAway(b: Board, p: Pos)
    requires b.Valid() && Consistent(b)
    ensures ConsistentAway(b, p)
  {
  }

  /** A board that agrees away from `p` and around `p` is consistent. */
  lemma ConsistentAround(b: Board, p: Pos)
    requires b.Valid() && b.Contains(p) && ConsistentAway(b, p)
    requires forall n :: b.Contains(n) && Adjacent(p, n) && b.At(n).owner == b.At(p).owner ==> b.At(n).area == b.At(p).area
    ensures Consistent(b)
  {
    forall u, v | b.Contains(u) && b.Contains(v) && Adjacent(u, v) &&
      b.At(u).owner >= 1 && b.At(u).owner == b.At(v).owner
      ensures b.At(u).area == b.At(v).area
    {
      AdjacentSymmetric(u, v);
    }
  }

  /** Pairs away from `p` only see cells other than `p`. */
  lemma AwayUnchanged(b: Board, b': Board, p: Pos)
    requires b.Valid() && b'.Valid() && b'.width == b.width && b'.height == b.height
    requires ConsistentAway(b, p)
    requires forall q :: b.Contains(q) && q != p ==> b'.At(q) == b.At(q)
    ensures ConsistentAway(b', p)
  {
  }
}
