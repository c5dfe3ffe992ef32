/** `gamma_golden_move`: the three ways a cell changes hands, the state each
    leaves behind and the invariants each keeps. */
module Capture {
  import opened Machine
  import opened Grid
  import opened Bfs
  import opened State
  import opened Areas
  import opened Adjacency
  import opened Exactness
  import opened Rules
  import opened Engine
  import opened Golden
  import opened Limits

  /** The checks `gamma_golden_move` makes before it changes anything. */
  ghost predicate GoldenLegal(g: Game, player: nat, x: nat, y: nat)
    requires Valid(g)
  {
    1 <= player <= g.players && x < g.board.width && y < g.board.height &&
    GoldenAllowed(g, player) && CanCapture(g, player, Pos(x, y))
  }

  /** What the C code needs to stay inside its tables once a capture is
      legal: a free slot for the new owner's new area, or neighbour ids that
      index the tables of the player whose areas `gamma_update_area` merges. */
  predicate CaptureDefined(g: Game, player: nat, p: Pos)
    requires Valid(g) && player <= g.players && g.board.Contains(p)
  {
    ValidCell(g, p);
    var oldPlayer := g.board.At(p).owner;
    var b1 := g.board.SetOwner(p, player);
    if SingleArea(g.board, player, p) then
      if SingleArea(g.board, oldPlayer, p) then HasFreeSlot(g.ledgers[player])
      else Mergeable(b1, g.ledgers[oldPlayer], oldPlayer, p)
    else Mergeable(b1, g.ledgers[player], player, p)
  }

  ghost predicate GoldenDefined(g: Game, player: nat, x: nat, y: nat)
    requires Valid(g)
  {
    GoldenLegal(g, player, x, y) ==> CaptureDefined(g, player, Pos(x, y))
  }

  /** The end of every successful branch: `golden_update_adjacent_fields`
      has moved the counts of free neighbouring cells, the board is `b3`,
      and the two players' ledgers are `ln` (new owner) and `lo` (old owner)
      with those counts. */
  function Install(g: Game, player: nat, p: Pos, b3: Board, ln: Ledger, lo: Ledger): (g': Game)
    requires Valid(g) && 1 <= player <= g.players && g.board.Contains(p)
    requires g.board.At(p).owner >= 1 && g.board.At(p).owner != player
    requires Valid(g.(board := b3)) && b3.width == g.board.width && b3.height == g.board.height
    requires LedgerShaped(ln, g.maxAreas) && LedgerShaped(lo, g.maxAreas)
    ensures SameShape(g, g') && g'.board == b3 && g'.freeFields == g.freeFields
  {
    ValidCell(g, p);
    var oldPlayer := g.board.At(p).owner;
    var cs := GoldenCaches(g.board, Caches(g), oldPlayer, player, p);
    var ls := seq(|g.ledgers|, q requires 0 <= q < |g.ledgers| =>
      (if q == player then ln else if q == oldPlayer then lo else g.ledgers[q]).(freeAdjacent := cs[q]));
    var g' := g.(board := b3, ledgers := ls);
    assert Valid(g') by {
      forall c | c in b3.AllPos() ensures CellFits(g', b3.At(c)) {
        assert CellFits(g.(board := b3), b3.At(c));
      }
    }
    g'
  }

  /** The ledgers `Install` leaves: `ln` and `lo` for the two players and
      every other ledger as it was, each with the counts of free
      neighbouring cells `golden_update_adjacent_fields` computes. */
  lemma InstallLedgers(g: Game, player: nat, p: Pos, b3: Board, ln: Ledger, lo: Ledger)
    requires Valid(g) && 1 <= player <= g.players && g.board.Contains(p)
    requires g.board.At(p).owner >= 1 && g.board.At(p).owner != player
    requires Valid(g.(board := b3)) && b3.width == g.board.width && b3.height == g.board.height
    requires LedgerShaped(ln, g.maxAreas) && LedgerShaped(lo, g.maxAreas)
    ensures var g', oldPlayer := Install(g, player, p, b3, ln, lo), g.board.At(p).owner;
      var cs := GoldenCaches(g.board, Caches(g), oldPlayer, player, p);
      && |g'.ledgers| == |g.ledgers| && oldPlayer < |g.ledgers|
      && g'.ledgers[player] == ln.(freeAdjacent := cs[player])
      && g'.ledgers[oldPlayer] == lo.(freeAdjacent := cs[oldPlayer])
      && forall q :: 0 <= q < |g.ledgers| && q != player && q != oldPlayer ==>
           g'.ledgers[q] == g.ledgers[q].(freeAdjacent := cs[q])
  {
  }

  /** A capture keeps every player within the area limit once its two
      players' new counts are within it. */
  lemma InstallCapped(g: Game, player: nat, p: Pos, b3: Board, ln: Ledger, lo: Ledger)
    requires Valid(g) && 1 <= player <= g.players && g.board.Contains(p)
    requires g.board.At(p).owner >= 1 && g.board.At(p).owner != player
    requires Valid(g.(board := b3)) && b3.width == g.board.width && b3.height == g.board.height
    requires LedgerShaped(ln, g.maxAreas) && LedgerShaped(lo, g.maxAreas)
    requires Capped(g) && ln.currentAreas <= g.maxAreas && lo.currentAreas <= g.maxAreas
    ensures Capped(Install(g, player, p, b3, ln, lo))
  {
    InstallLedgers(g, player, p, b3, ln, lo);
    CappedFrom(g, Install(g, player, p, b3, ln, lo), player, g.board.At(p).owner);
  }

  /** What every successful golden move does: `p` passes to `player` and
      no other cell changes owner, the busy fields move from the old owner
      to `player` (64-bit counters), the free fields stay, `player`'s golden
      move is spent, the counts of free neighbouring cells move as
      `golden_update_adjacent_fields` moves them, and no third player's
      ledger changes. */
  ghost predicate Captured(g: Game, g': Game, player: nat, p: Pos)
    requires Valid(g) && 1 <= player <= g.players && g.board.Contains(p)
  {
    ValidCell(g, p);
    var oldPlayer := g.board.At(p).owner;
    && Valid(g') && Claimed(g.board, g'.board, p, player)
    && g'.players == g.players && g'.maxAreas == g.maxAreas && g'.freeFields == g.freeFields
    && g'.ledgers[player].busy == Wrap64(g.ledgers[player].busy + 1)
    && g'.ledgers[oldPlayer].busy == Wrap64(g.ledgers[oldPlayer].busy - 1)
    && g'.ledgers[player].usedGolden
    && g'.ledgers[oldPlayer].usedGolden == g.ledgers[oldPlayer].usedGolden
    && Caches(g') == GoldenCaches(g.board, Caches(g), oldPlayer, player, p)
    && forall q :: 0 <= q <= g.players && q != player && q != oldPlayer ==> g'.ledgers[q] == g.ledgers[q]
  }

  /** `g'` is a valid state of a game with the same players, area limit
      and board size as `g`. */
  ghost predicate SameShape(g: Game, g': Game)
  {
    Valid(g') && g'.players == g.players && g'.maxAreas == g.maxAreas &&
    g'.board.width == g.board.width && g'.board.height == g.board.height
  }

  /** Neither player has a cell around `p`: the new owner opens an area with
      the smallest free id holding one cell, the old owner loses one area,
      and no other cell changes. */
  ghost predicate IsolatedCapture(g: Game, g': Game, player: nat, p: Pos)
    requires Valid(g) && 1 <= player <= g.players && g.board.Contains(p)
    requires SameShape(g, g')
  {
    ValidCell(g, p);
    var oldPlayer := g.board.At(p).owner;
    var ln, lo := g.ledgers[player], g.ledgers[oldPlayer];
    var ln', lo' := g'.ledgers[player], g'.ledgers[oldPlayer];
    var r := g'.board.At(p).area;
    && 1 <= r < |ln.areaNumber| && ln.areaNumber[r] == 0
    && (forall i :: 1 <= i < r ==> ln.areaNumber[i] != 0)
    && (forall q :: g.board.Contains(q) && q != p ==> g'.board.At(q) == g.board.At(q))
    && ln'.currentAreas == ln.currentAreas + 1
    && ln'.areaNumber == ln.areaNumber[r := r] && ln'.areaSize == ln.areaSize[r := 1]
    && lo'.currentAreas == Wrap32(lo.currentAreas - 1)
    && lo'.areaNumber == lo.areaNumber && lo'.areaSize == lo.areaSize
  }

  /** The tables of the player whose areas were merged around `p`: the
      slots of the merged ids are released, the survivor keeps its number
      and records the summed size. */
  ghost predicate MergedTables(b: Board, l: Ledger, player: nat, p: Pos, l': Ledger)
    requires b.Valid() && Mergeable(b, l, player, p)
  {
    var s := SurvivingId(b, l, player, p);
    && ReleasedSlots(b, l, player, p, l')
    && l'.areaNumber[s] == l.areaNumber[s] && l'.areaSize[s] == MergedSize(b, l, player, p)
  }

  /** The old owner's tables after a split capture: merged around `p` with
      the count raised, then moved by the split areas. */
  ghost predicate SplitTables(b1: Board, lo: Ledger, oldPlayer: nat, p: Pos, areas: nat, b3: Board, lo': Ledger)
    requires b1.Valid() && Mergeable(b1, lo, oldPlayer, p) && b3.Valid()
  {
    && MergedTables(b1, lo, oldPlayer, p, lo')
    && lo'.currentAreas == SplitCount(Wrap32(lo.currentAreas + (CountAreas(b1, oldPlayer, p) - 1)), areas,
                                      CountAreas(b3, oldPlayer, p), SingleArea(b3, oldPlayer, p))
  }

  /** The new owner's tables record one more area, `s`, of size 1. */
  predicate OpenedArea(ln: Ledger, ln': Ledger, s: nat)
  {
    && s < |ln.areaNumber| && s < |ln.areaSize|
    && ln'.currentAreas == ln.currentAreas + 1
    && ln'.areaNumber == ln.areaNumber[s := s] && ln'.areaSize == ln.areaSize[s := 1]
  }

  /** The new owner has no cell around `p` but the old owner has: the old
      owner's areas around `p` are merged as `gamma_update_area` merges them,
      with the area count moving up; the count then moves by the split
      areas; `p` keeps the surviving id, which the new owner's tables record
      as an area of size 1. */
  ghost predicate SplitCapture(g: Game, g': Game, player: nat, p: Pos, areas: nat)
    requires Valid(g) && 1 <= player <= g.players && g.board.Contains(p)
    requires SameShape(g, g')
  {
    ValidCell(g, p);
    var oldPlayer := g.board.At(p).owner;
    var b1 := g.board.SetOwner(p, player);
    var lo := g.ledgers[oldPlayer];
    && Mergeable(b1, lo, oldPlayer, p)
    && Relabelled(b1, lo, oldPlayer, p, g'.board)
    && SplitTables(b1, lo, oldPlayer, p, areas, g'.board, g'.ledgers[oldPlayer])
    && OpenedArea(g.ledgers[player], g'.ledgers[player], SurvivingId(b1, lo, oldPlayer, p))
  }

  /** The new owner's tables after a join capture: merged around `p` as by
      an ordinary move, then the survivor's slot records its own id and
      size 1. */
  ghost predicate JoinTables(b1: Board, ln: Ledger, player: nat, p: Pos, ln': Ledger)
    requires b1.Valid() && Mergeable(b1, ln, player, p)
  {
    var s := SurvivingId(b1, ln, player, p);
    && ReleasedSlots(b1, ln, player, p, ln')
    && ln'.areaNumber[s] == s && ln'.areaSize[s] == 1
    && ln'.currentAreas == Wrap32(ln.currentAreas - (CountAreas(b1, player, p) - 1))
  }

  /** The new owner has cells around `p`: its areas around `p` are merged
      as by an ordinary move, the survivor's slot then records size 1, and
      the old owner's count moves by the split areas. */
  ghost predicate JoinCapture(g: Game, g': Game, player: nat, p: Pos, areas: nat)
    requires Valid(g) && 1 <= player <= g.players && g.board.Contains(p)
    requires SameShape(g, g')
  {
    ValidCell(g, p);
    var oldPlayer := g.board.At(p).owner;
    var b1 := g.board.SetOwner(p, player);
    var ln, lo := g.ledgers[player], g.ledgers[oldPlayer];
    var lo' := g'.ledgers[oldPlayer];
    && Mergeable(b1, ln, player, p)
    && Relabelled(b1, ln, player, p, g'.board)
    && JoinTables(b1, ln, player, p, g'.ledgers[player])
    && lo'.currentAreas == AddSplit(lo.currentAreas, areas, CountAreas(g'.board, oldPlayer, p))
    && lo'.areaNumber == lo.areaNumber && lo'.areaSize == lo.areaSize
  }

  /** The state after a successful `gamma_golden_move` on `p`, given the
      number of pairs `golden_count_areas` reported. */
  ghost predicate CaptureOutcome(g: Game, g': Game, player: nat, p: Pos, areas: nat)
    requires Valid(g) && 1 <= player <= g.players && g.board.Contains(p)
  {
    ValidCell(g, p);
    var oldPlayer := g.board.At(p).owner;
    && Captured(g, g', player, p)
    && (SingleArea(g.board, player, p) && SingleArea(g.board, oldPlayer, p) ==> IsolatedCapture(g, g', player, p))
    && (SingleArea(g.board, player, p) && !SingleArea(g.board, oldPlayer, p) ==> SplitCapture(g, g', player, p, areas))
    && (!SingleArea(g.board, player, p) ==> JoinCapture(g, g', player, p, areas))
  }

  /** The state after a successful `gamma_golden_move` on `p`. */
  ghost predicate GoldenOutcome(g: Game, g': Game, player: nat, p: Pos)
    requires Valid(g) && 1 <= player <= g.players && g.board.Contains(p)
  {
    ValidCell(g, p);
    CaptureOutcome(g, g', player, p, GoldenAreas(g.board, g.board.At(p).owner, player, p))
  }

  /** Cells of each player on a board where `p` changed hands to `o`. */
  lemma ClaimedCellsOf(b0: Board, b1: Board, p: Pos, o: nat, q: nat)
    requires b0.Valid() && b1.Valid() && Claimed(b0, b1, p, o)
    ensures b1.CellsOf(q) == if q == o then b0.CellsOf(q) + {p} else b0.CellsOf(q) - {p}
  {
  }

  /** Giving `p` to `player` and then relabelling ids leaves `p` claimed. */
  lemma ClaimedAfterRelabel(b: Board, b3: Board, p: Pos, player: nat)
    requires b.Valid() && b.Contains(p) && b3.Valid() && SameOwners(b.SetOwner(p, player), b3)
    ensures Claimed(b, b3, p, player)
  {
  }

  lemma CapturedHolds(g: Game, player: nat, p: Pos, b3: Board, ln: Ledger, lo: Ledger)
    requires Valid(g) && 1 <= player <= g.players && g.board.Contains(p)
    requires g.board.At(p).owner >= 1 && g.board.At(p).owner != player
    requires Valid(g.(board := b3)) && b3.width == g.board.width && b3.height == g.board.height
    requires LedgerShaped(ln, g.maxAreas) && LedgerShaped(lo, g.maxAreas)
    requires Claimed(g.board, b3, p, player)
    requires ln.busy == Wrap64(g.ledgers[player].busy + 1) && ln.usedGolden
    requires lo.busy == Wrap64(g.ledgers[g.board.At(p).owner].busy - 1)
    requires lo.usedGolden == g.ledgers[g.board.At(p).owner].usedGolden
    ensures Captured(g, Install(g, player, p, b3, ln, lo), player, p)
  {
    var oldPlayer := g.board.At(p).owner;
    var g' := Install(g, player, p, b3, ln, lo);
    InstallLedgers(g, player, p, b3, ln, lo);
    var cs := GoldenCaches(g.board, Caches(g), oldPlayer, player, p);
    assert Caches(g') == cs;
    forall q | 0 <= q <= g.players && q != player && q != oldPlayer
      ensures g'.ledgers[q] == g.ledgers[q]
    {
      assert cs[q] == Caches(g)[q];
    }
  }

  /** The busy and free field counters follow the board through a capture. */
  lemma CaptureCounts(g: Game, g': Game, player: nat, p: Pos)
    requires Valid(g) && Counts(g) && 1 <= player <= g.players && g.board.Contains(p)
    requires g.board.At(p).owner >= 1 && g.board.At(p).owner != player
    requires Valid(g') && Claimed(g.board, g'.board, p, player)
    requires g'.players == g.players && g'.freeFields == g.freeFields
    requires forall q :: 1 <= q <= g.players ==>
      g'.ledgers[q].busy == if q == player then Wrap64(g.ledgers[q].busy + 1)
                            else if q == g.board.At(p).owner then Wrap64(g.ledgers[q].busy - 1)
                            else g.ledgers[q].busy
    ensures Counts(g')
  {
    ValidCell(g, p);
    ClaimedCellsOf(g.board, g'.board, p, player, 0);
    RemoveSize(g.board.CellsOf(0), p);
    forall q | 1 <= q <= g'.players
      ensures g'.ledgers[q].busy == |g'.board.CellsOf(q)|
    {
      CaptureBusy(g.board, g'.board, player, p, q, g.ledgers[q].busy, g'.ledgers[q].busy);
    }
  }

  /** One player's counter: `after` is what the capture leaves of a counter
      that was exact before. */
  lemma CaptureBusy(b: Board, b': Board, player: nat, p: Pos, q: nat, before: nat, after: nat)
    requires b.Valid() && b'.Valid() && b.width < U32 && b.height < U32 && Claimed(b, b', p, player)
    requires b.At(p).owner != player && before == |b.CellsOf(q)|
    requires after == if q == player then Wrap64(before + 1)
                      else if q == b.At(p).owner then Wrap64(before - 1) else before
    ensures after == |b'.CellsOf(q)|
  {
    ClaimedCellsOf(b, b', p, player, q);
    CellsBound(b, q);
    ProductFits(b.width, b.height);
    if q == player {
      assert p !in b.CellsOf(q);
    } else {
      RemoveSize(b.CellsOf(q), p);
    }
  }

  /** A capture that leaves a consistent board keeps the invariant. */
  lemma CaptureKeepsInvariant(g: Game, g': Game, player: nat, p: Pos)
    requires Invariant(g) && 1 <= player <= g.players && g.board.Contains(p)
    requires g.board.At(p).owner >= 1 && g.board.At(p).owner != player
    requires Captured(g, g', player, p) && Consistent(g'.board)
    ensures Invariant(g')
  {
    var oldPlayer := g.board.At(p).owner;
    var g2 := GoldenUpdateAdjacentFields(g, oldPlayer, player, p);
    GoldenKeepsCacheExact(g, player, p);
    CacheExactSameOwners(g2, g');
    ValidCell(g, p);
    forall q | 1 <= q <= g.players
      ensures g'.ledgers[q].busy == if q == player then Wrap64(g.ledgers[q].busy + 1)
                                    else if q == oldPlayer then Wrap64(g.ledgers[q].busy - 1)
                                    else g.ledgers[q].busy
    {
      if q != player && q != oldPlayer {
        assert g'.ledgers[q] == g.ledgers[q];
      }
    }
    CaptureCounts(g, g', player, p);
  }

  /** Isolated capture: the new owner opens an area with the smallest free
      id. */
  method CaptureIsolated(g: Game, player: nat, p: Pos) returns (g': Game)
    requires Valid(g) && 1 <= player <= g.players && g.board.Contains(p)
    requires g.board.At(p).owner != 0 && g.board.At(p).owner != player
    requires SingleArea(g.board, player, p) && SingleArea(g.board, g.board.At(p).owner, p)
    requires HasFreeSlot(g.ledgers[player])
    ensures GoldenOutcome(g, g', player, p)
    ensures Invariant(g) ==> Invariant(g')
    ensures Capped(g) && IsolatedBounds(g, player, p) ==> Capped(g')
  {
    ValidCell(g, p);
    var oldPlayer := g.board.At(p).owner;
    var ln, lo := g.ledgers[player], g.ledgers[oldPlayer];
    var r := NextFreeAreaNumber(ln);
    var b3 := g.board.SetOwner(p, player).SetArea(p, r);
    var ln' := ln.(currentAreas := ln.currentAreas + 1, busy := Wrap64(ln.busy + 1),
                   areaNumber := ln.areaNumber[r := r], areaSize := ln.areaSize[r := 1],
                   usedGolden := true);
    var lo' := lo.(currentAreas := Wrap32(lo.currentAreas - 1), busy := Wrap64(lo.busy - 1));
    IsolatedCaptureStep(g, player, p, r, b3, ln', lo');
    if Capped(g) && IsolatedBounds(g, player, p) {
      IsolatedKeepsCap(g, player, p, r, b3, ln', lo');
    }
    g' := Install(g, player, p, b3, ln', lo');
  }

  lemma IsolatedCaptureStep(g: Game, player: nat, p: Pos, r: nat, b3: Board, ln': Ledger, lo': Ledger)
    requires Valid(g) && 1 <= player <= g.players && g.board.Contains(p)
    requires g.board.At(p).owner != 0 && g.board.At(p).owner != player
    requires SingleArea(g.board, player, p) && SingleArea(g.board, g.board.At(p).owner, p)
    requires var ln := g.ledgers[player];
      && 1 <= r < |ln.areaNumber| && ln.areaNumber[r] == 0
      && (forall i :: 1 <= i < r ==> ln.areaNumber[i] != 0)
    requires b3 == g.board.SetOwner(p, player).SetArea(p, r)
    requires var ln := g.ledgers[player];
      ln' == ln.(currentAreas := ln.currentAreas + 1, busy := Wrap64(ln.busy + 1),
                 areaNumber := ln.areaNumber[r := r], areaSize := ln.areaSize[r := 1],
                 usedGolden := true)
    requires var lo := g.ledgers[g.board.At(p).owner];
      lo' == lo.(currentAreas := Wrap32(lo.currentAreas - 1), busy := Wrap64(lo.busy - 1))
    ensures Valid(g.(board := b3)) && LedgerShaped(ln', g.maxAreas) && LedgerShaped(lo', g.maxAreas)
    ensures var g' := Install(g, player, p, b3, ln', lo');
      CaptureOutcome(g, g', player, p, 0) && (Invariant(g) ==> Invariant(g'))
  {
    ValidCell(g, p);
    ClaimFits(g, player, p, r);
    var g' := Install(g, player, p, b3, ln', lo');
    CapturedHolds(g, player, p, b3, ln', lo');
    IsolatedCaptureHolds(g, player, p, r, b3, ln', lo');
    if Invariant(g) {
      IsolatedCaptureConsistent(g.board, player, p, r);
      CaptureKeepsInvariant(g, g', player, p);
    }
  }

  lemma IsolatedCaptureHolds(g: Game, player: nat, p: Pos, r: nat, b3: Board, ln': Ledger, lo': Ledger)
    requires Valid(g) && 1 <= player <= g.players && g.board.Contains(p)
    requires g.board.At(p).owner != 0 && g.board.At(p).owner != player
    requires var ln := g.ledgers[player];
      && 1 <= r < |ln.areaNumber| && ln.areaNumber[r] == 0
      && (forall i :: 1 <= i < r ==> ln.areaNumber[i] != 0)
    requires b3 == g.board.SetOwner(p, player).SetArea(p, r)
    requires Valid(g.(board := b3)) && LedgerShaped(ln', g.maxAreas) && LedgerShaped(lo', g.maxAreas)
    requires var ln := g.ledgers[player];
      ln' == ln.(currentAreas := ln.currentAreas + 1, busy := Wrap64(ln.busy + 1),
                 areaNumber := ln.areaNumber[r := r], areaSize := ln.areaSize[r := 1],
                 usedGolden := true)
    requires var lo := g.ledgers[g.board.At(p).owner];
      lo' == lo.(currentAreas := Wrap32(lo.currentAreas - 1), busy := Wrap64(lo.busy - 1))
    requires Captured(g, Install(g, player, p, b3, ln', lo'), player, p)
    ensures IsolatedCapture(g, Install(g, player, p, b3, ln', lo'), player, p)
  {
  }

  lemma ClaimFits(g: Game, player: nat, p: Pos, r: nat)
    requires Valid(g) && g.board.Contains(p) && player <= g.players && r < TableSize(g.maxAreas)
    ensures Valid(g.(board := g.board.SetOwner(p, player).SetArea(p, r)))
  {
    var g1 := g.(board := g.board.SetOwner(p, player).SetArea(p, r));
    forall q | q in g1.board.AllPos() ensures CellFits(g1, g1.board.At(q)) {
      ValidCell(g, q);
    }
  }

  lemma IsolatedCaptureConsistent(b: Board, player: nat, p: Pos, r: nat)
    requires b.Valid() && b.Contains(p) && Consistent(b) && SingleArea(b, player, p)
    ensures Consistent(b.SetOwner(p, player).SetArea(p, r))
  {
    var b3 := b.SetOwner(p, player).SetArea(p, r);
    ConsistentIsAway(b, p);
    AwayUnchanged(b, b3, p);
    ConsistentAround(b3, p);
  }

  /** A merge around `p` on the board where `p` already changed hands keeps
      every cell inside the tables, and `p` takes the surviving id. */
  lemma RelabelFits(g: Game, player: nat, p: Pos, l: Ledger, o: nat, b3: Board)
    requires Valid(g) && g.board.Contains(p) && player <= g.players && LedgerShaped(l, g.maxAreas)
    requires Mergeable(g.board.SetOwner(p, player), l, o, p)
    requires Relabelled(g.board.SetOwner(p, player), l, o, p, b3)
    ensures Valid(g.(board := b3)) && SameOwners(g.board.SetOwner(p, player), b3)
    ensures b3.At(p).area == SurvivingId(g.board.SetOwner(p, player), l, o, p)
    ensures b3.At(p).area < TableSize(g.maxAreas)
  {
    var g3 := g.(board := b3);
    forall q | q in b3.AllPos() ensures CellFits(g3, b3.At(q)) {
      ValidCell(g, q);
    }
  }

  /** The new owner's ledger after a split capture: one more area, the
      slot `s` holding id `s` and size 1, one more busy field, and the
      golden move spent. */
  function SplitNewLedger(ln: Ledger, s: nat): Ledger
    requires s < |ln.areaNumber| && s < |ln.areaSize|
  {
    ln.(currentAreas := ln.currentAreas + 1, busy := Wrap64(ln.busy + 1),
        areaNumber := ln.areaNumber[s := s], areaSize := ln.areaSize[s := 1], usedGolden := true)
  }

  /** The old owner's ledger after a split capture: the tables `l3` left by
      `gamma_update_area`, the count moved by the split areas, one busy
      field fewer. */
  function SplitOldLedger(l3: Ledger, lo: Ledger, areas: nat, countAfter: nat, singleAfter: bool): Ledger
  {
    l3.(currentAreas := SplitCount(l3.currentAreas, areas, countAfter, singleAfter), busy := Wrap64(lo.busy - 1))
  }

  /** The new owner's ledger after a join capture: the tables `l3` left by
      `gamma_update_area` with the survivor's slot set to its id and size 1,
      one more busy field, and the golden move spent. */
  function JoinNewLedger(l3: Ledger, ln: Ledger, s: nat): Ledger
    requires s < |l3.areaNumber| && s < |l3.areaSize|
  {
    l3.(busy := Wrap64(ln.busy + 1), areaNumber := l3.areaNumber[s := s],
        areaSize := l3.areaSize[s := 1], usedGolden := true)
  }

  /** The old owner's ledger after a join capture: the count moved by the
      split areas, one busy field fewer. */
  function JoinOldLedger(lo: Ledger, areas: nat, countAfter: nat): Ledger
  {
    lo.(currentAreas := AddSplit(lo.currentAreas, areas, countAfter), busy := Wrap64(lo.busy - 1))
  }

  /** Split capture: the old owner's areas around `p` are merged as if the
      old owner had played there, then `p` passes to the new owner. */
  method CaptureSplit(g: Game, player: nat, p: Pos, areas: nat) returns (g': Game)
    requires Valid(g) && 1 <= player <= g.players && g.board.Contains(p)
    requires g.board.At(p).owner != 0 && g.board.At(p).owner != player
    requires SingleArea(g.board, player, p) && !SingleArea(g.board, g.board.At(p).owner, p)
    requires Mergeable(g.board.SetOwner(p, player), g.ledgers[g.board.At(p).owner], g.board.At(p).owner, p)
    ensures CaptureOutcome(g, g', player, p, areas)
    ensures Invariant(g) ==> Invariant(g')
    ensures Capped(g) && Consistent(g.board) && SplitBounds(g, player, p, areas) ==> Capped(g')
  {
    ValidCell(g, p);
    var oldPlayer := g.board.At(p).owner;
    var ln, lo := g.ledgers[player], g.ledgers[oldPlayer];
    var b1 := g.board.SetOwner(p, player);
    var b3, l3 := GammaUpdateArea(b1, lo, oldPlayer, p, true);
    RelabelFits(g, player, p, lo, oldPlayer, b3);
    var s := b3.At(p).area;
    var lo' := SplitOldLedger(l3, lo, areas, CountAreas(b3, oldPlayer, p), SingleArea(b3, oldPlayer, p));
    var ln' := SplitNewLedger(ln, s);
    SplitCaptureStep(g, player, p, areas, b1, lo, b3, l3);
    if Capped(g) && Consistent(g.board) && SplitBounds(g, player, p, areas) {
      SplitKeepsCap(g, player, p, areas, b1, lo, b3, l3);
    }
    g' := Install(g, player, p, b3, ln', lo');
  }

  lemma SplitCaptureStep(g: Game, player: nat, p: Pos, areas: nat, b1: Board, l: Ledger, b3: Board, l3: Ledger)
    requires Valid(g) && 1 <= player <= g.players && g.board.Contains(p)
    requires g.board.At(p).owner != 0 && g.board.At(p).owner != player
    requires SingleArea(g.board, player, p) && !SingleArea(g.board, g.board.At(p).owner, p)
    requires b1 == g.board.SetOwner(p, player) && l == g.ledgers[g.board.At(p).owner]
    requires Mergeable(b1, l, g.board.At(p).owner, p) && Relabelled(b1, l, g.board.At(p).owner, p, b3)
    requires Recounted(b1, l, g.board.At(p).owner, p, true, l3)
    requires SameOwners(b1, b3)
    requires Valid(g.(board := b3)) && b3.At(p).area < TableSize(g.maxAreas)
    ensures var oldPlayer := g.board.At(p).owner;
      var ln' := SplitNewLedger(g.ledgers[player], b3.At(p).area);
      var lo' := SplitOldLedger(l3, g.ledgers[oldPlayer], areas, CountAreas(b3, oldPlayer, p), SingleArea(b3, oldPlayer, p));
      && LedgerShaped(ln', g.maxAreas) && LedgerShaped(lo', g.maxAreas)
      && var g' := Install(g, player, p, b3, ln', lo');
         CaptureOutcome(g, g', player, p, areas) && (Invariant(g) ==> Invariant(g'))
  {
    ValidCell(g, p);
    var oldPlayer := g.board.At(p).owner;
    var ln' := SplitNewLedger(g.ledgers[player], b3.At(p).area);
    var lo' := SplitOldLedger(l3, g.ledgers[oldPlayer], areas, CountAreas(b3, oldPlayer, p), SingleArea(b3, oldPlayer, p));
    var g' := Install(g, player, p, b3, ln', lo');
    assert LedgerShaped(l3, g.maxAreas);
    SplitCaptured(g, player, p, areas, b3, l3);
    SplitCaptureHolds(g, g', player, p, areas, b1, l, l3);
    if Invariant(g) {
      SplitCaptureConsistent(g.board, b3, l, player, p);
      CaptureKeepsInvariant(g, g', player, p);
    }
  }

  lemma SplitCaptured(g: Game, player: nat, p: Pos, areas: nat, b3: Board, l3: Ledger)
    requires Valid(g) && 1 <= player <= g.players && g.board.Contains(p)
    requires g.board.At(p).owner != 0 && g.board.At(p).owner != player
    requires Valid(g.(board := b3)) && SameOwners(g.board.SetOwner(p, player), b3)
    requires b3.At(p).area < TableSize(g.maxAreas) && LedgerShaped(l3, g.maxAreas)
    requires l3.usedGolden == g.ledgers[g.board.At(p).owner].usedGolden
    ensures var oldPlayer := g.board.At(p).owner;
      var ln' := SplitNewLedger(g.ledgers[player], b3.At(p).area);
      var lo' := SplitOldLedger(l3, g.ledgers[oldPlayer], areas, CountAreas(b3, oldPlayer, p), SingleArea(b3, oldPlayer, p));
      && LedgerShaped(ln', g.maxAreas) && LedgerShaped(lo', g.maxAreas)
      && b3.width == g.board.width && b3.height == g.board.height
      && Captured(g, Install(g, player, p, b3, ln', lo'), player, p)
  {
    ValidCell(g, p);
    var oldPlayer := g.board.At(p).owner;
    var ln' := SplitNewLedger(g.ledgers[player], b3.At(p).area);
    var lo' := SplitOldLedger(l3, g.ledgers[oldPlayer], areas, CountAreas(b3, oldPlayer, p), SingleArea(b3, oldPlayer, p));
    ClaimedAfterRelabel(g.board, b3, p, player);
    CapturedHolds(g, player, p, b3, ln', lo');
  }

  lemma SplitCaptureHolds(g: Game, g': Game, player: nat, p: Pos, areas: nat, b1: Board, l: Ledger, l3: Ledger)
    requires Valid(g) && 1 <= player <= g.players && g.board.Contains(p)
    requires g.board.At(p).owner != 0 && g.board.At(p).owner != player
    requires b1 == g.board.SetOwner(p, player) && l == g.ledgers[g.board.At(p).owner]
    requires SameShape(g, g')
    requires Mergeable(b1, l, g.board.At(p).owner, p) && Relabelled(b1, l, g.board.At(p).owner, p, g'.board)
    requires Recounted(b1, l, g.board.At(p).owner, p, true, l3)
    requires var ln, ln', s := g.ledgers[player], g'.ledgers[player], g'.board.At(p).area;
      && s < |ln.areaNumber| && s < |ln.areaSize|
      && ln'.currentAreas == ln.currentAreas + 1
      && ln'.areaNumber == ln.areaNumber[s := s] && ln'.areaSize == ln.areaSize[s := 1]
    requires var lo' := g'.ledgers[g.board.At(p).owner];
      && lo'.currentAreas == SplitCount(l3.currentAreas, areas, CountAreas(g'.board, g.board.At(p).owner, p), SingleArea(g'.board, g.board.At(p).owner, p))
      && lo'.areaNumber == l3.areaNumber && lo'.areaSize == l3.areaSize
    ensures SplitCapture(g, g', player, p, areas)
  {
    SplitTablesHolds(b1, l, g.board.At(p).owner, p, areas, g'.board, l3, g'.ledgers[g.board.At(p).owner]);
  }

  lemma SplitTablesHolds(b1: Board, lo: Ledger, oldPlayer: nat, p: Pos, areas: nat, b3: Board, l3: Ledger, lo': Ledger)
    requires b1.Valid() && Mergeable(b1, lo, oldPlayer, p) && b3.Valid()
    requires Recounted(b1, lo, oldPlayer, p, true, l3)
    requires lo'.areaNumber == l3.areaNumber && lo'.areaSize == l3.areaSize
    requires lo'.currentAreas == SplitCount(l3.currentAreas, areas, CountAreas(b3, oldPlayer, p), SingleArea(b3, oldPlayer, p))
    ensures SplitTables(b1, lo, oldPlayer, p, areas, b3, lo')
  {
    ReleasedSlotsTables(b1, lo, oldPlayer, p, l3, lo');
  }

  lemma SplitCaptureConsistent(b: Board, b3: Board, l: Ledger, player: nat, p: Pos)
    requires b.Valid() && b.Contains(p) && Consistent(b) && SingleArea(b, player, p)
    requires Mergeable(b.SetOwner(p, player), l, b.At(p).owner, p)
    requires Relabelled(b.SetOwner(p, player), l, b.At(p).owner, p, b3)
    ensures Consistent(b3)
  {
    var b1 := b.SetOwner(p, player);
    ConsistentIsAway(b, p);
    AwayUnchanged(b, b1, p);
    MergeKeepsConsistent(b1, b3, b.At(p).owner, p, SurvivingId(b1, l, b.At(p).owner, p));
    ConsistentAround(b3, p);
  }

  /** Join capture: the new owner's areas around `p` are merged as by an
      ordinary move; the survivor's slot then records size 1. */
  method CaptureJoin(g: Game, player: nat, p: Pos, areas: nat) returns (g': Game)
    requires Valid(g) && 1 <= player <= g.players && g.board.Contains(p)
    requires g.board.At(p).owner != 0 && g.board.At(p).owner != player
    requires !SingleArea(g.board, player, p)
    requires Mergeable(g.board.SetOwner(p, player), g.ledgers[player], player, p)
    ensures CaptureOutcome(g, g', player, p, areas)
    ensures Invariant(g) ==> Invariant(g')
    ensures Capped(g) && Consistent(g.board) && JoinBounds(g, player, p, areas) ==> Capped(g')
  {
    ValidCell(g, p);
    var oldPlayer := g.board.At(p).owner;
    var ln, lo := g.ledgers[player], g.ledgers[oldPlayer];
    var b1 := g.board.SetOwner(p, player);
    var b3, l3 := GammaUpdateArea(b1, ln, player, p, false);
    RelabelFits(g, player, p, ln, player, b3);
    var s := b3.At(p).area;
    var lo' := JoinOldLedger(lo, areas, CountAreas(b3, oldPlayer, p));
    var ln' := JoinNewLedger(l3, ln, s);
    JoinCaptureStep(g, player, p, areas, b1, ln, b3, l3);
    if Capped(g) && Consistent(g.board) && JoinBounds(g, player, p, areas) {
      JoinKeepsCap(g, player, p, areas, b1, ln, b3, l3);
    }
    g' := Install(g, player, p, b3, ln', lo');
  }

  lemma JoinCaptureStep(g: Game, player: nat, p: Pos, areas: nat, b1: Board, l: Ledger, b3: Board, l3: Ledger)
    requires Valid(g) && 1 <= player <= g.players && g.board.Contains(p)
    requires g.board.At(p).owner != 0 && g.board.At(p).owner != player
    requires !SingleArea(g.board, player, p)
    requires b1 == g.board.SetOwner(p, player) && l == g.ledgers[player]
    requires Mergeable(b1, l, player, p) && Relabelled(b1, l, player, p, b3)
    requires Recounted(b1, l, player, p, false, l3)
    requires SameOwners(b1, b3)
    requires Valid(g.(board := b3)) && b3.At(p).area < TableSize(g.maxAreas)
    ensures var oldPlayer := g.board.At(p).owner;
      var ln' := JoinNewLedger(l3, g.ledgers[player], b3.At(p).area);
      var lo' := JoinOldLedger(g.ledgers[oldPlayer], areas, CountAreas(b3, oldPlayer, p));
      && LedgerShaped(ln', g.maxAreas) && LedgerShaped(lo', g.maxAreas)
      && var g' := Install(g, player, p, b3, ln', lo');
         CaptureOutcome(g, g', player, p, areas) && (Invariant(g) ==> Invariant(g'))
  {
    ValidCell(g, p);
    var oldPlayer := g.board.At(p).owner;
    var ln' := JoinNewLedger(l3, g.ledgers[player], b3.At(p).area);
    var lo' := JoinOldLedger(g.ledgers[oldPlayer], areas, CountAreas(b3, oldPlayer, p));
    var g' := Install(g, player, p, b3, ln', lo');
    assert LedgerShaped(l3, g.maxAreas);
    JoinCaptured(g, player, p, areas, b3, l3);
    JoinCaptureHolds(g, g', player, p, areas, b1, l, l3);
    if Invariant(g) {
      JoinCaptureConsistent(g.board, b3, l, player, p);
      CaptureKeepsInvariant(g, g', player, p);
    }
  }

  lemma JoinCaptured(g: Game, player: nat, p: Pos, areas: nat, b3: Board, l3: Ledger)
    requires Valid(g) && 1 <= player <= g.players && g.board.Contains(p)
    requires g.board.At(p).owner != 0 && g.board.At(p).owner != player
    requires Valid(g.(board := b3)) && SameOwners(g.board.SetOwner(p, player), b3)
    requires b3.At(p).area < TableSize(g.maxAreas) && LedgerShaped(l3, g.maxAreas)
    ensures var oldPlayer := g.board.At(p).owner;
      var ln' := JoinNewLedger(l3, g.ledgers[player], b3.At(p).area);
      var lo' := JoinOldLedger(g.ledgers[oldPlayer], areas, CountAreas(b3, oldPlayer, p));
      && LedgerShaped(ln', g.maxAreas) && LedgerShaped(lo', g.maxAreas)
      && b3.width == g.board.width && b3.height == g.board.height
      && Captured(g, Install(g, player, p, b3, ln', lo'), player, p)
  {
    ValidCell(g, p);
    var oldPlayer := g.board.At(p).owner;
    var ln' := JoinNewLedger(l3, g.ledgers[player], b3.At(p).area);
    var lo' := JoinOldLedger(g.ledgers[oldPlayer], areas, CountAreas(b3, oldPlayer, p));
    ClaimedAfterRelabel(g.board, b3, p, player);
    CapturedHolds(g, player, p, b3, ln', lo');
  }

  lemma JoinCaptureHolds(g: Game, g': Game, player: nat, p: Pos, areas: nat, b1: Board, l: Ledger, l3: Ledger)
    requires Valid(g) && 1 <= player <= g.players && g.board.Contains(p)
    requires g.board.At(p).owner != 0 && g.board.At(p).owner != player
    requires b1 == g.board.SetOwner(p, player) && l == g.ledgers[player]
    requires SameShape(g, g')
    requires Mergeable(b1, l, player, p) && Relabelled(b1, l, player, p, g'.board)
    requires Recounted(b1, l, player, p, false, l3)
    requires var ln', s := g'.ledgers[player], g'.board.At(p).area;
      && s < |l3.areaNumber| && s < |l3.areaSize|
      && ln'.currentAreas == l3.currentAreas
      && ln'.areaNumber == l3.areaNumber[s := s] && ln'.areaSize == l3.areaSize[s := 1]
    requires var lo, lo' := g.ledgers[g.board.At(p).owner], g'.ledgers[g.board.At(p).owner];
      && lo'.currentAreas == AddSplit(lo.currentAreas, areas, CountAreas(g'.board, g.board.At(p).owner, p))
      && lo'.areaNumber == lo.areaNumber && lo'.areaSize == lo.areaSize
    ensures JoinCapture(g, g', player, p, areas)
  {
    JoinTablesHolds(b1, l, player, p, l3, g'.ledgers[player]);
  }

  lemma JoinTablesHolds(b1: Board, ln: Ledger, player: nat, p: Pos, l3: Ledger, ln': Ledger)
    requires b1.Valid() && Mergeable(b1, ln, player, p)
    requires Recounted(b1, ln, player, p, false, l3)
    requires var s := SurvivingId(b1, ln, player, p);
      && ln'.currentAreas == l3.currentAreas
      && ln'.areaNumber == l3.areaNumber[s := s] && ln'.areaSize == l3.areaSize[s := 1]
    ensures JoinTables(b1, ln, player, p, ln')
  {
    assert ReleasedSlots(b1, ln, player, p, ln');
  }

  lemma JoinCaptureConsistent(b: Board, b3: Board, l: Ledger, player: nat, p: Pos)
    requires b.Valid() && b.Contains(p) && Consistent(b)
    requires Mergeable(b.SetOwner(p, player), l, player, p)
    requires Relabelled(b.SetOwner(p, player), l, player, p, b3)
    ensures Consistent(b3)
  {
    var b1 := b.SetOwner(p, player);
    ConsistentIsAway(b, p);
    AwayUnchanged(b, b1, p);
    MergeKeepsConsistent(b1, b3, player, p, SurvivingId(b1, l, player, p));
    ConsistentAround(b3, p);
  }

  /** An isolated capture keeps every player within the area limit when
      the new owner has room for one more area and the old owner counted
      the area it loses. */
  lemma IsolatedKeepsCap(g: Game, player: nat, p: Pos, r: nat, b3: Board, ln': Ledger, lo': Ledger)
    requires Valid(g) && 1 <= player <= g.players && g.board.Contains(p)
    requires g.board.At(p).owner != 0 && g.board.At(p).owner != player
    requires Valid(g.(board := b3)) && b3.width == g.board.width && b3.height == g.board.height
    requires LedgerShaped(ln', g.maxAreas) && LedgerShaped(lo', g.maxAreas)
    requires ln'.currentAreas == g.ledgers[player].currentAreas + 1
    requires lo'.currentAreas == Wrap32(g.ledgers[g.board.At(p).owner].currentAreas - 1)
    requires Capped(g) && IsolatedBounds(g, player, p)
    ensures Capped(Install(g, player, p, b3, ln', lo'))
  {
    ValidCell(g, p);
    InstallCapped(g, player, p, b3, ln', lo');
  }

  /** A split capture keeps every player within the area limit when the
      limit test in `gamma_golden_move` did not wrap. */
  lemma SplitKeepsCap(g: Game, player: nat, p: Pos, areas: nat, b1: Board, l: Ledger, b3: Board, l3: Ledger)
    requires Valid(g) && 1 <= player <= g.players && g.board.Contains(p)
    requires g.board.At(p).owner != 0 && g.board.At(p).owner != player
    requires !SingleArea(g.board, g.board.At(p).owner, p)
    requires b1 == g.board.SetOwner(p, player) && l == g.ledgers[g.board.At(p).owner]
    requires Mergeable(b1, l, g.board.At(p).owner, p) && Relabelled(b1, l, g.board.At(p).owner, p, b3)
    requires l3.currentAreas == Wrap32(l.currentAreas + (CountAreas(b1, g.board.At(p).owner, p) - 1))
    requires Valid(g.(board := b3)) && b3.width == g.board.width && b3.height == g.board.height
    requires b3.At(p).area < TableSize(g.maxAreas) && LedgerShaped(l3, g.maxAreas)
    requires Capped(g) && Consistent(g.board) && SplitBounds(g, player, p, areas)
    ensures var oldPlayer := g.board.At(p).owner;
      var ln' := SplitNewLedger(g.ledgers[player], b3.At(p).area);
      var lo' := SplitOldLedger(l3, g.ledgers[oldPlayer], areas, CountAreas(b3, oldPlayer, p), SingleArea(b3, oldPlayer, p));
      LedgerShaped(ln', g.maxAreas) && LedgerShaped(lo', g.maxAreas) && Capped(Install(g, player, p, b3, ln', lo'))
  {
    ValidCell(g, p);
    var oldPlayer := g.board.At(p).owner;
    var ln' := SplitNewLedger(g.ledgers[player], b3.At(p).area);
    var lo' := SplitOldLedger(l3, g.ledgers[oldPlayer], areas, CountAreas(b3, oldPlayer, p), SingleArea(b3, oldPlayer, p));
    SplitOldCount(g, player, p, areas, b1, l, b3, l3);
    InstallCapped(g, player, p, b3, ln', lo');
  }

  /** The old owner's count after a split capture stays within the limit:
      `p`'s one id stays the only one around `p` through the merge. */
  lemma SplitOldCount(g: Game, player: nat, p: Pos, areas: nat, b1: Board, l: Ledger, b3: Board, l3: Ledger)
    requires Valid(g) && 1 <= player <= g.players && g.board.Contains(p)
    requires g.board.At(p).owner != 0 && g.board.At(p).owner != player
    requires !SingleArea(g.board, g.board.At(p).owner, p)
    requires b1 == g.board.SetOwner(p, player) && l == g.ledgers[g.board.At(p).owner]
    requires Mergeable(b1, l, g.board.At(p).owner, p) && Relabelled(b1, l, g.board.At(p).owner, p, b3)
    requires l3.currentAreas == Wrap32(l.currentAreas + (CountAreas(b1, g.board.At(p).owner, p) - 1))
    requires Capped(g) && Consistent(g.board) && SplitBounds(g, player, p, areas)
    ensures var oldPlayer := g.board.At(p).owner;
      SplitCount(l3.currentAreas, areas, CountAreas(b3, oldPlayer, p), SingleArea(b3, oldPlayer, p)) <= g.maxAreas
  {
    ValidCell(g, p);
    OneIdBefore(g.board, player, p);
    OneIdAfter(b1, l, g.board.At(p).owner, p, b3, g.board.At(p).area);
    SplitCountCap(l.currentAreas, areas, g.maxAreas);
  }

  /** A join capture keeps every player within the area limit when the new
      owner's merged ids are at most one more than its count and the limit
      test in `gamma_golden_move` did not wrap. */
  lemma JoinKeepsCap(g: Game, player: nat, p: Pos, areas: nat, b1: Board, l: Ledger, b3: Board, l3: Ledger)
    requires Valid(g) && 1 <= player <= g.players && g.board.Contains(p)
    requires g.board.At(p).owner != 0 && g.board.At(p).owner != player
    requires b1 == g.board.SetOwner(p, player) && l == g.ledgers[player]
    requires Mergeable(b1, l, player, p) && Relabelled(b1, l, player, p, b3)
    requires l3.currentAreas == Wrap32(l.currentAreas - (CountAreas(b1, player, p) - 1))
    requires Valid(g.(board := b3)) && b3.width == g.board.width && b3.height == g.board.height
    requires b3.At(p).area < TableSize(g.maxAreas) && LedgerShaped(l3, g.maxAreas)
    requires Capped(g) && Consistent(g.board) && JoinBounds(g, player, p, areas)
    ensures var oldPlayer := g.board.At(p).owner;
      var ln' := JoinNewLedger(l3, g.ledgers[player], b3.At(p).area);
      var lo' := JoinOldLedger(g.ledgers[oldPlayer], areas, CountAreas(b3, oldPlayer, p));
      LedgerShaped(ln', g.maxAreas) && LedgerShaped(lo', g.maxAreas) && Capped(Install(g, player, p, b3, ln', lo'))
  {
    ValidCell(g, p);
    var oldPlayer := g.board.At(p).owner;
    var ln' := JoinNewLedger(l3, g.ledgers[player], b3.At(p).area);
    var lo' := JoinOldLedger(g.ledgers[oldPlayer], areas, CountAreas(b3, oldPlayer, p));
    JoinCounts(g, player, p, areas, b1, l, b3, l3);
    InstallCapped(g, player, p, b3, ln', lo');
  }

  /** Both counts after a join capture stay within the limit: the new
      owner's merged ids come off its count, and the old owner's
      neighbours of `p` keep their one id or none. */
  lemma JoinCounts(g: Game, player: nat, p: Pos, areas: nat, b1: Board, l: Ledger, b3: Board, l3: Ledger)
    requires Valid(g) && 1 <= player <= g.players && g.board.Contains(p)
    requires g.board.At(p).owner != 0 && g.board.At(p).owner != player
    requires b1 == g.board.SetOwner(p, player) && l == g.ledgers[player]
    requires Mergeable(b1, l, player, p) && Relabelled(b1, l, player, p, b3)
    requires l3.currentAreas == Wrap32(l.currentAreas - (CountAreas(b1, player, p) - 1))
    requires Capped(g) && Consistent(g.board) && JoinBounds(g, player, p, areas)
    ensures l3.currentAreas <= g.maxAreas
    ensures var oldPlayer := g.board.At(p).owner;
      AddSplit(g.ledgers[oldPlayer].currentAreas, areas, CountAreas(b3, oldPlayer, p)) <= g.maxAreas
  {
    ValidCell(g, p);
    var oldPlayer := g.board.At(p).owner;
    JoinNewCap(g.board, player, p, l.currentAreas, l3.currentAreas, g.maxAreas);
    OldIdsKept(g.board, player, p, l, b3);
    if !SingleArea(g.board, oldPlayer, p) {
      AddSplitCap(g.ledgers[oldPlayer].currentAreas, areas, g.maxAreas);
    }
  }

  /** A player whose golden move succeeded cannot make another. */
  lemma GoldenSpent(g: Game, g': Game, player: nat, p: Pos)
    requires Valid(g) && 1 <= player <= g.players && g.board.Contains(p)
    requires GoldenOutcome(g, g', player, p)
    ensures Valid(g') && !GoldenAllowed(g', player)
  {
    ValidCell(g, p);
  }

  /** `gamma_golden_move`: `player` takes another player's cell `(x, y)`
      when the golden move is still allowed and the capture keeps both
      players within the area limit; otherwise nothing changes. */
  method GoldenMove(g: Game, player: nat, x: nat, y: nat) returns (ok: bool, g': Game)
    requires Valid(g) && GoldenDefined(g, player, x, y)
    ensures ok <==> GoldenLegal(g, player, x, y)
    ensures !ok ==> g' == g
    ensures ok ==> GoldenOutcome(g, g', player, Pos(x, y))
    ensures ok && Invariant(g) ==> Invariant(g')
    ensures ok && Invariant(g) && Capped(g) && CapHypotheses(g, player, Pos(x, y)) ==> Capped(g')
    ensures ok ==> !GoldenAllowed(g', player)
  {
    var p := Pos(x, y);
    if !(1 <= player <= g.players && x < g.board.width && y < g.board.height) {
      return false, g;
    }
    var possible := GoldenPossible(g, player);
    if !possible {
      return false, g;
    }
    ValidCell(g, p);
    var oldPlayer := g.board.At(p).owner;
    if oldPlayer == 0 || oldPlayer == player {
      return false, g;
    }
    ok, g' := CaptureMove(g, player, p);
    if ok {
      GoldenSpent(g, g', player, p);
    }
  }

  /** The branches of `gamma_golden_move` once the golden move is allowed
      and `p` belongs to another player. The C code counts the split areas
      only on the branches that read the count and tests the limits between
      the branches; the count leaves the board as it was, so the tests are
      gathered here into `OnField`, the same tests
      `gamma_golden_possible_on_field` makes, before any change. */
  method CaptureMove(g: Game, player: nat, p: Pos) returns (ok: bool, g': Game)
    requires Valid(g) && 1 <= player <= g.players && g.board.Contains(p)
    requires g.board.At(p).owner != 0 && g.board.At(p).owner != player
    requires CanCapture(g, player, p) ==> CaptureDefined(g, player, p)
    ensures ok <==> CanCapture(g, player, p)
    ensures !ok ==> g' == g
    ensures ok ==> GoldenOutcome(g, g', player, p)
    ensures ok && Invariant(g) ==> Invariant(g')
    ensures ok && Invariant(g) && Capped(g) && CapHypotheses(g, player, p) ==> Capped(g')
  {
    ValidCell(g, p);
    var oldPlayer := g.board.At(p).owner;
    var areas, _ := GoldenCountAreas(g.board, oldPlayer, player, p);
    ok := OnField(g, player, p, areas);
    if !ok {
      return false, g;
    }
    if Capped(g) && CapHypotheses(g, player, p) {
      BoundsFromHypotheses(g, player, p, areas);
    }
    if SingleArea(g.board, player, p) {
      if SingleArea(g.board, oldPlayer, p) {
        g' := CaptureIsolated(g, player, p);
      } else {
        g' := CaptureSplit(g, player, p, areas);
      }
    } else {
      g' := CaptureJoin(g, player, p, areas);
    }
  }
}
