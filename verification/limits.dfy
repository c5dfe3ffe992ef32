/** How `gamma_golden_move` moves the two players' area counts, and why,
    when the counts and ids are as the C code evidently expects (no 32-bit
    wrap in the limit test, a nonzero id on the captured cell, a positive
    recorded size for its area, a positive count for an old owner that
    loses an area), no player ends a golden move above `max_areas`. */
module Limits {
  import opened Machine
  import opened Grid
  import opened Bfs
  import opened State
  import opened Areas
  import opened Rules
  import opened Engine
  import opened Golden

  /** The old owner's count after `gamma_golden_move` adds the split areas
      (1 raised to 2) less one, as a 32-bit sum; the step is skipped when the
      old owner's neighbours of `p` now carry one id (`countAfter`) and
      nothing was split. */
  function AddSplit(c: nat, areas: nat, countAfter: nat): nat
  {
    var k := if areas == 1 then 2 else areas;
    if countAfter != 1 || k != 0 then Wrap32(c + (k - 1)) else c
  }

  /** The split branch then takes one more area away when the old owner has
      no cell around `p` (`singleAfter`). */
  function SplitCount(c: nat, areas: nat, countAfter: nat, singleAfter: bool): nat
  {
    var c1 := AddSplit(c, areas, countAfter);
    if singleAfter then Wrap32(c1 - 1) else c1
  }

  /** The conditions under which a golden move on `p` keeps both players
      within the area limit. */
  predicate CapHypotheses(g: Game, player: nat, p: Pos)
    requires Valid(g) && player <= g.players && g.board.Contains(p)
  {
    ValidCell(g, p);
    var oldPlayer := g.board.At(p).owner;
    var ln, lo := g.ledgers[player], g.ledgers[oldPlayer];
    && g.maxAreas + 6 < U32
    && g.board.At(p).area != 0
    && (oldPlayer >= 1 ==> Wrap32(lo.areaSize[g.board.At(p).area]) != 0)
    && (SingleArea(g.board, oldPlayer, p) ==> lo.currentAreas >= 1)
    && (!SingleArea(g.board, player, p) ==> 1 <= CountAreas(g.board, player, p) <= ln.currentAreas + 1)
  }

  /** What the isolated branch needs: room for the new area, and an area to
      take from the old owner. */
  predicate IsolatedBounds(g: Game, player: nat, p: Pos)
    requires Valid(g) && player <= g.players && g.board.Contains(p)
  {
    ValidCell(g, p);
    g.ledgers[player].currentAreas < g.maxAreas && g.ledgers[g.board.At(p).owner].currentAreas >= 1
  }

  /** What the split branch needs: room for the new area, the old owner's
      count and the split areas within the limit without wrapping, and a
      positive recorded size for `p`'s nonzero id. */
  predicate SplitBounds(g: Game, player: nat, p: Pos, areas: nat)
    requires Valid(g) && player <= g.players && g.board.Contains(p)
  {
    ValidCell(g, p);
    var oldPlayer := g.board.At(p).owner;
    var lo := g.ledgers[oldPlayer];
    && g.ledgers[player].currentAreas < g.maxAreas
    && g.board.At(p).area != 0
    && (oldPlayer >= 1 ==> Wrap32(lo.areaSize[g.board.At(p).area]) != 0)
    && lo.currentAreas + areas < U32 && Wrap32(lo.currentAreas + areas) <= g.maxAreas
  }

  /** What the join branch needs: the new owner's merged ids at least one
      and at most one more than its count, and the old owner either losing
      an isolated cell it counted, or staying within the limit with the
      split areas. */
  predicate JoinBounds(g: Game, player: nat, p: Pos, areas: nat)
    requires Valid(g) && player <= g.players && g.board.Contains(p)
  {
    ValidCell(g, p);
    var oldPlayer := g.board.At(p).owner;
    var lo := g.ledgers[oldPlayer];
    && g.board.At(p).area != 0
    && 1 <= CountAreas(g.board, player, p) <= g.ledgers[player].currentAreas + 1
    && if SingleArea(g.board, oldPlayer, p) then lo.currentAreas >= 1 && areas == 0
       else lo.currentAreas + areas < U32 && Wrap32(lo.currentAreas + areas) <= g.maxAreas
  }

  lemma GoldenAreasBound(b: Board, oldPlayer: nat, newPlayer: nat, p: Pos)
    requires b.Valid() && b.Contains(p)
    ensures GoldenAreas(b, oldPlayer, newPlayer, p) <= 6
    ensures SingleArea(b, oldPlayer, p) ==> GoldenAreas(b, oldPlayer, newPlayer, p) == 0
  {
  }

  /** The hypotheses, the limit test that passed and the split count give
      each branch what it needs. */
  lemma BoundsFromHypotheses(g: Game, player: nat, p: Pos, areas: nat)
    requires Valid(g) && Capped(g) && 1 <= player <= g.players && g.board.Contains(p)
    requires CaptureTest(g, player, p, areas) && CapHypotheses(g, player, p)
    requires areas == GoldenAreas(g.board, g.board.At(p).owner, player, p)
    ensures var oldPlayer := g.board.At(p).owner;
      && (SingleArea(g.board, player, p) && SingleArea(g.board, oldPlayer, p) ==> IsolatedBounds(g, player, p))
      && (SingleArea(g.board, player, p) && !SingleArea(g.board, oldPlayer, p) ==> SplitBounds(g, player, p, areas))
      && (!SingleArea(g.board, player, p) ==> JoinBounds(g, player, p, areas))
  {
    ValidCell(g, p);
    GoldenAreasBound(g.board, g.board.At(p).owner, player, p);
  }

  /** Third players keep their counts, so the limit holds after a capture
      once it holds for its two players. */
  lemma CappedFrom(g: Game, g': Game, player: nat, oldPlayer: nat)
    requires Valid(g) && Valid(g') && Capped(g) && g'.players == g.players && g'.maxAreas == g.maxAreas
    requires player < |g.ledgers| && oldPlayer < |g.ledgers|
    requires forall q :: 0 <= q < |g.ledgers| && q != player && q != oldPlayer ==>
      g'.ledgers[q].currentAreas == g.ledgers[q].currentAreas
    requires g'.ledgers[player].currentAreas <= g.maxAreas && g'.ledgers[oldPlayer].currentAreas <= g.maxAreas
    ensures Capped(g')
  {
  }

  /** Around a cell whose owner's neighbours all carry the id `i`, that
      owner has no area id there when it has no neighbour, and one
      otherwise. */
  lemma CountAreasUniform(b: Board, player: nat, p: Pos, i: nat)
    requires b.Valid() && i != 0
    requires forall n :: Adjacent(p, n) && b.OwnedBy(n, player) ==> b.At(n).area == i
    ensures CountAreas(b, player, p) == if SingleArea(b, player, p) then 0 else 1
  {
    var ids := NeighbourIds(b, player, p);
    var a := NeighbourIdList(b, player, p);
    assert forall k :: 0 <= k < 4 ==> a[k] == 0 || a[k] == i;
    if SingleArea(b, player, p) {
      assert ids == {};
    } else {
      assert i in ids by {
        if b.OwnedBy(Up(p), player) { assert a[0] == i; }
        else if b.OwnedBy(Left(p), player) { assert a[1] == i; }
        else if b.OwnedBy(Right(p), player) { assert a[2] == i; }
        else { assert a[3] == i; }
      }
      assert ids == {i};
    }
  }

  /** On a consistent board the owner's neighbours of `p` carry `p`'s id. */
  lemma OwnerNeighbourIds(b: Board, p: Pos)
    requires b.Valid() && Consistent(b) && b.Contains(p) && b.At(p).owner >= 1
    ensures forall n :: Adjacent(p, n) && b.OwnedBy(n, b.At(p).owner) ==> b.At(n).area == b.At(p).area
  {
  }

  /** The old owner's count once the split areas are added stays within the
      limit the test in `gamma_golden_move` checked, when that sum did not
      wrap. */
  lemma AddSplitCap(c: nat, areas: nat, maxAreas: nat)
    requires c <= maxAreas && c + areas < U32 && Wrap32(c + areas) <= maxAreas
    ensures AddSplit(c, areas, 1) <= maxAreas
  {
  }

  /** The same for the split branch, where the merge first raised the count
      by the one id around `p` less one. */
  lemma SplitCountCap(c: nat, areas: nat, maxAreas: nat)
    requires c <= maxAreas && c + areas < U32 && Wrap32(c + areas) <= maxAreas
    ensures SplitCount(Wrap32(c + (1 - 1)), areas, 1, false) <= maxAreas
  {
    AddSplitCap(c, areas, maxAreas);
  }

  /** When all the owner's neighbours of `p` carry `i` and that id's
      recorded size is positive, the merge keeps `i`. */
  lemma SurvivorKeepsId(b1: Board, lo: Ledger, oldPlayer: nat, p: Pos, i: nat)
    requires b1.Valid() && Mergeable(b1, lo, oldPlayer, p) && !SingleArea(b1, oldPlayer, p)
    requires forall n :: Adjacent(p, n) && b1.OwnedBy(n, oldPlayer) ==> b1.At(n).area == i
    requires i < |lo.areaSize| && Wrap32(lo.areaSize[i]) != 0
    ensures SurvivingId(b1, lo, oldPlayer, p) == i
  {
    assert HasSizedNeighbour(b1, lo, oldPlayer, p) by {
      var n :| Adjacent(p, n) && b1.OwnedBy(n, oldPlayer);
      assert SizeOf(b1, lo, oldPlayer, n) > 0;
    }
  }

  /** After the merge around `p` the owner's neighbours of `p` carry the
      surviving id. */
  lemma MergedNeighbourIds(b1: Board, lo: Ledger, oldPlayer: nat, p: Pos, b3: Board)
    requires b1.Valid() && Mergeable(b1, lo, oldPlayer, p) && Relabelled(b1, lo, oldPlayer, p, b3)
    ensures forall n :: Adjacent(p, n) && b3.OwnedBy(n, oldPlayer) ==> b3.At(n).area == SurvivingId(b1, lo, oldPlayer, p)
    ensures SingleArea(b3, oldPlayer, p) == SingleArea(b1, oldPlayer, p)
  {
    forall n | Adjacent(p, n) && b3.OwnedBy(n, oldPlayer) ensures b3.At(n).area == SurvivingId(b1, lo, oldPlayer, p) {
      NeighbourMerged(b1, oldPlayer, p, n);
    }
  }

  /** Once `p` changed hands, the old owner's neighbours of `p` still carry
      the one id `p` had. */
  lemma OneIdBefore(b: Board, player: nat, p: Pos)
    requires b.Valid() && Consistent(b) && b.Contains(p)
    requires b.At(p).owner != 0 && b.At(p).area != 0
    ensures var b1, oldPlayer := b.SetOwner(p, player), b.At(p).owner;
      && (forall n :: Adjacent(p, n) && b1.OwnedBy(n, oldPlayer) ==> b1.At(n).area == b.At(p).area)
      && SingleArea(b1, oldPlayer, p) == SingleArea(b, oldPlayer, p)
      && CountAreas(b1, oldPlayer, p) == if SingleArea(b, oldPlayer, p) then 0 else 1
  {
    var oldPlayer, i := b.At(p).owner, b.At(p).area;
    var b1 := b.SetOwner(p, player);
    OwnerNeighbourIds(b, p);
    assert forall n :: Adjacent(p, n) && b1.OwnedBy(n, oldPlayer) ==> b1.At(n).area == i;
    CountAreasUniform(b1, oldPlayer, p, i);
  }

  /** After the merge, the old owner's neighbours of `p` carry the one id
      `i` again. */
  lemma OneIdAfter(b1: Board, lo: Ledger, oldPlayer: nat, p: Pos, b3: Board, i: nat)
    requires b1.Valid() && Mergeable(b1, lo, oldPlayer, p) && Relabelled(b1, lo, oldPlayer, p, b3)
    requires !SingleArea(b1, oldPlayer, p) && i != 0
    requires forall n :: Adjacent(p, n) && b1.OwnedBy(n, oldPlayer) ==> b1.At(n).area == i
    requires i < |lo.areaSize| && Wrap32(lo.areaSize[i]) != 0
    ensures CountAreas(b3, oldPlayer, p) == 1 && !SingleArea(b3, oldPlayer, p)
  {
    SurvivorKeepsId(b1, lo, oldPlayer, p, i);
    MergedNeighbourIds(b1, lo, oldPlayer, p, b3);
    CountAreasUniform(b3, oldPlayer, p, i);
  }

  /** A merge of the new owner's areas around `p` leaves the old owner's
      neighbours of `p` as they were: one id, or none when `p` was an area
      of its own. */
  lemma OldIdsKept(b: Board, player: nat, p: Pos, l: Ledger, b3: Board)
    requires b.Valid() && Consistent(b) && b.Contains(p)
    requires b.At(p).owner != 0 && b.At(p).owner != player && b.At(p).area != 0
    requires var b1 := b.SetOwner(p, player);
      Mergeable(b1, l, player, p) && Relabelled(b1, l, player, p, b3)
    ensures CountAreas(b3, b.At(p).owner, p) == if SingleArea(b, b.At(p).owner, p) then 0 else 1
  {
    OldNeighboursKept(b, player, p, l, b3);
    CountAreasUniform(b3, b.At(p).owner, p, b.At(p).area);
  }

  /** The merge leaves the old owner's neighbours of `p` with `p`'s id and
      with their owner. */
  lemma OldNeighboursKept(b: Board, player: nat, p: Pos, l: Ledger, b3: Board)
    requires b.Valid() && Consistent(b) && b.Contains(p)
    requires b.At(p).owner != 0 && b.At(p).owner != player
    requires var b1 := b.SetOwner(p, player);
      Mergeable(b1, l, player, p) && Relabelled(b1, l, player, p, b3)
    ensures forall n :: Adjacent(p, n) && b3.OwnedBy(n, b.At(p).owner) ==> b3.At(n).area == b.At(p).area
    ensures SingleArea(b3, b.At(p).owner, p) == SingleArea(b, b.At(p).owner, p)
  {
    var oldPlayer := b.At(p).owner;
    var b1 := b.SetOwner(p, player);
    OwnerNeighbourIds(b, p);
    MergedOwned(b1, player, p);
    forall n | Adjacent(p, n) && b3.OwnedBy(n, oldPlayer) ensures b3.At(n).area == b.At(p).area {
      assert n !in Merged(b1, player, p);
    }
  }

  /** The new owner's count after a join capture: its merged ids, at least
      one and at most one more than its count, come off less one. */
  lemma JoinNewCap(b: Board, player: nat, p: Pos, c: nat, c': nat, maxAreas: nat)
    requires b.Valid() && b.Contains(p) && c <= maxAreas
    requires 1 <= CountAreas(b, player, p) <= c + 1
    requires c' == Wrap32(c - (CountAreas(b.SetOwner(p, player), player, p) - 1))
    ensures c' <= maxAreas
  {
    assert NeighbourIdList(b.SetOwner(p, player), player, p) == NeighbourIdList(b, player, p);
  }
}
