/** The public operations of the engine that do not involve the golden move:
    `gamma_new`, the two field queries and `gamma_move` with its helpers
    `gamma_single_area`, `next_free_area_number` and `gamma_move_possible`. */
module Engine {
  import opened Machine
  import opened Grid
  import opened Bfs
  import opened State
  import opened Areas
  import opened Adjacency
  import opened Exactness
  import opened Rules

  datatype Option<T> = None | Some(value: T)

  /** The state `gamma_new` builds for the given sizes. */
  ghost predicate Initial(g: Game, width: nat, height: nat, players: nat, areas: nat)
  {
    && g.board.Valid() && g.board.width == width && g.board.height == height
    && (forall p :: g.board.Contains(p) ==> g.board.At(p) == Cell(0, 0))
    && g.players == players && g.maxAreas == areas && g.freeFields == width * height
    && |g.ledgers| == players + 1
    && forall q :: 0 <= q < |g.ledgers| ==>
         var l := g.ledgers[q];
         l.freeAdjacent == 0 && !l.usedGolden && l.currentAreas == 0 && l.busy == 0 &&
         LedgerShaped(l, areas) &&
         (forall i :: 0 <= i < |l.areaNumber| ==> l.areaNumber[i] == 0) &&
         (forall i :: 0 <= i < |l.areaSize| ==> l.areaSize[i] == 0)
  }

  /** `gamma_new`: no game when a size is zero or when `players + 1`
      overflows 32 bits; otherwise an empty board and zeroed ledgers. */
  function New(width: nat, height: nat, players: nat, areas: nat): (r: Option<Game>)
    requires width < U32 && height < U32 && players < U32 && areas < U32
    ensures r.None? <==> width == 0 || height == 0 || players == 0 || areas == 0 || players + 1 == U32
    ensures r.Some? ==> Initial(r.value, width, height, players, areas)
    ensures r.Some? ==> Invariant(r.value) && Capped(r.value)
  {
    if width == 0 || height == 0 || players == 0 || areas == 0 then None
    else if Wrap32(players + 1) == 0 then None
    else
      var g := Game(areas, players, width * height, seq(players + 1, _ => EmptyLedger(areas)),
                    EmptyBoard(width, height));
      NewInvariant(g);
      Some(g)
  }

  lemma NewInvariant(g: Game)
    requires g.board.Valid() && 1 <= g.board.width < U32 && 1 <= g.board.height < U32
    requires 1 <= g.players && g.players + 1 < U32 && 1 <= g.maxAreas < U32
    requires g.freeFields == g.board.width * g.board.height
    requires g.ledgers == seq(g.players + 1, _ => EmptyLedger(g.maxAreas))
    requires forall p :: g.board.Contains(p) ==> g.board.At(p) == Cell(0, 0)
    ensures Invariant(g) && Capped(g)
  {
    assert Valid(g);
    AllPosCard(g.board);
    assert g.board.CellsOf(0) == g.board.AllPos();
    forall q | 1 <= q <= g.players
      ensures g.ledgers[q].busy == |g.board.CellsOf(q)| && Cache(g, q) == |Frontier(g.board, q)|
    {
      assert g.board.CellsOf(q) == {};
      assert Frontier(g.board, q) == {};
    }
  }

  /** `gamma_busy_fields`: 0 for a player id out of range. */
  function BusyFields(g: Game, player: nat): (r: nat)
    requires Valid(g)
    ensures player == 0 || player > g.players ==> r == 0
    ensures Invariant(g) && 1 <= player <= g.players ==> r == |g.board.CellsOf(player)|
  {
    if player == 0 || player > g.players then 0 else g.ledgers[player].busy
  }

  /** `gamma_free_fields`: the free cells next to the player's cells once it
      has reached the area limit, every free cell before. */
  function FreeFields(g: Game, player: nat): (r: nat)
    requires Valid(g)
    ensures player == 0 || player > g.players ==> r == 0
    ensures Invariant(g) && 1 <= player <= g.players ==>
      r == if g.ledgers[player].currentAreas == g.maxAreas then |Frontier(g.board, player)|
           else |g.board.CellsOf(0)|
  {
    if player == 0 || player > g.players then 0
    else if g.ledgers[player].currentAreas == g.maxAreas then g.ledgers[player].freeAdjacent
    else g.freeFields
  }

  /** `gamma_single_area`: no neighbour of `p` is `player`'s. */
  function SingleArea(b: Board, player: nat, p: Pos): (r: bool)
    requires b.Valid()
    ensures r <==> forall n :: Adjacent(p, n) ==> !b.OwnedBy(n, player)
    ensures r <==> PlayerNeighbours(b, player, p) == {}
  {
    NoNeighbours(b, player, p);
    !(b.OwnedBy(Right(p), player) || b.OwnedBy(Left(p), player) ||
      b.OwnedBy(Up(p), player) || b.OwnedBy(Down(p), player))
  }

  lemma NoNeighbours(b: Board, player: nat, p: Pos)
    requires b.Valid()
    ensures var e := !(b.OwnedBy(Right(p), player) || b.OwnedBy(Left(p), player) ||
                       b.OwnedBy(Up(p), player) || b.OwnedBy(Down(p), player));
      (e <==> forall n :: Adjacent(p, n) ==> !b.OwnedBy(n, player)) &&
      (e <==> PlayerNeighbours(b, player, p) == {})
  {
    if b.OwnedBy(Right(p), player) {
      assert Right(p) in PlayerNeighbours(b, player, p);
    } else if b.OwnedBy(Left(p), player) {
      assert Left(p) in PlayerNeighbours(b, player, p);
    } else if b.OwnedBy(Up(p), player) {
      assert Up(p) in PlayerNeighbours(b, player, p);
    } else if b.OwnedBy(Down(p), player) {
      assert Down(p) in PlayerNeighbours(b, player, p);
    } else {
      forall q | q in PlayerNeighbours(b, player, p) ensures false {
        DirsAdjacent(p, q);
      }
    }
  }

  /** Some id slot other than 0 is unused. */
  predicate HasFreeSlot(l: Ledger)
  {
    exists i :: 1 <= i < |l.areaNumber| && l.areaNumber[i] == 0
  }

  /** `next_free_area_number`: the smallest unused id from 1 up. The C loop
      runs past the table when no slot is free, so a free slot is required. */
  method NextFreeAreaNumber(l: Ledger) returns (r: nat)
    requires HasFreeSlot(l)
    ensures 1 <= r < |l.areaNumber| && l.areaNumber[r] == 0
    ensures forall i :: 1 <= i < r ==> l.areaNumber[i] != 0
  {
    ghost var k :| 1 <= k < |l.areaNumber| && l.areaNumber[k] == 0;
    r := 1;
    while l.areaNumber[r] != 0
      invariant 1 <= r <= k
      invariant forall i :: 1 <= i < r ==> l.areaNumber[i] != 0
      decreases k - r
    {
      r := r + 1;
    }
  }

  /** The checks of `gamma_move` and `gamma_move_possible`: a player id in
      range, a cell on the board that is free, and room for one more area
      when the cell touches none of the player's. */
  predicate MoveLegal(g: Game, player: nat, x: nat, y: nat)
    requires Valid(g)
  {
    1 <= player <= g.players && x < g.board.width && y < g.board.height &&
    g.board.At(Pos(x, y)).owner == 0 &&
    (SingleArea(g.board, player, Pos(x, y)) ==> g.ledgers[player].currentAreas < g.maxAreas)
  }

  /** What a legal move needs to stay inside the C arrays: a free id slot for
      a new area, and for a merge the conditions of `gamma_update_area`. */
  predicate MoveDefined(g: Game, player: nat, x: nat, y: nat)
    requires Valid(g)
  {
    MoveLegal(g, player, x, y) ==>
      if SingleArea(g.board, player, Pos(x, y)) then HasFreeSlot(g.ledgers[player])
      else Mergeable(g.board, g.ledgers[player], player, Pos(x, y))
  }

  /** A cell that touches none of `player`'s cells starts a new area with the
      smallest free id; the count of areas grows by one, the id's slot
      records it with size one more, and no other cell changes. */
  ghost predicate IsolatedOutcome(g: Game, g': Game, player: nat, p: Pos)
    requires Valid(g) && Valid(g') && g'.maxAreas == g.maxAreas && player < |g.ledgers| && player < |g'.ledgers|
    requires g.board.Contains(p) && g'.board.width == g.board.width && g'.board.height == g.board.height
  {
    var l := g.ledgers[player];
    var l' := g'.ledgers[player];
    var r := g'.board.At(p).area;
    && 1 <= r < |l.areaNumber| && l.areaNumber[r] == 0
    && (forall i :: 1 <= i < r ==> l.areaNumber[i] != 0)
    && l'.currentAreas == l.currentAreas + 1
    && l'.areaNumber == l.areaNumber[r := r]
    && l'.areaSize == l.areaSize[r := Wrap64(l.areaSize[r] + 1)]
    && forall q :: g.board.Contains(q) && q != p ==> g'.board.At(q) == g.board.At(q)
  }

  /** A cell next to `player`'s cells joins them: every cell reachable from
      its neighbours takes the surviving id, the count of areas drops by the
      number of distinct neighbouring ids less one, the survivor's slot
      records the summed size and the other neighbours' slots are released. */
  ghost predicate MergedOutcome(g: Game, g': Game, player: nat, p: Pos)
    requires Valid(g) && Valid(g') && g'.maxAreas == g.maxAreas && player < |g.ledgers| && player < |g'.ledgers|
    requires g.board.Contains(p) && g'.board.width == g.board.width && g'.board.height == g.board.height
  {
    var b := g.board;
    var l := g.ledgers[player];
    var l' := g'.ledgers[player];
    Mergeable(b, l, player, p) &&
    var s := SurvivingId(b, l, player, p);
    && (forall q :: b.Contains(q) ==>
          g'.board.At(q) == if q == p || q in Merged(b, player, p) then Cell(player, s) else b.At(q))
    && l'.currentAreas == Wrap32(l.currentAreas - (CountAreas(b, player, p) - 1))
    && l'.areaNumber[s] == l.areaNumber[s]
    && l'.areaSize[s] == MergedSize(b, l, player, p)
    && ReleasedSlots(b, l, player, p, l')
  }

  /** The end of `gamma_move`: `p` becomes `player`'s, one free field fewer,
      one busy field more. */
  function Occupy(g: Game, b1: Board, l1: Ledger, player: nat, p: Pos): (g': Game)
    requires Valid(g.(board := b1)) && 1 <= player <= g.players && b1.Contains(p)
    requires CellFits(g, Cell(player, b1.At(p).area)) && LedgerShaped(l1, g.maxAreas)
    ensures Valid(g') && g'.board == b1.SetOwner(p, player)
    ensures g'.players == g.players && g'.maxAreas == g.maxAreas
    ensures g'.freeFields == Wrap64(g.freeFields - 1)
    ensures g'.ledgers == g.ledgers[player := l1.(busy := Wrap64(l1.busy + 1))]
  {
    var g0 := GiveCell(g.(board := b1), p, player);
    g0.(freeFields := Wrap64(g.freeFields - 1),
        ledgers := g.ledgers[player := l1.(busy := Wrap64(l1.busy + 1))])
  }

  /** The bookkeeping of a successful move at `p`: `p` becomes `player`'s,
      the free fields drop by one and the player's busy fields grow by one;
      other ledgers change at most in their count of free neighbouring
      cells. */
  ghost predicate Played(g: Game, g': Game, player: nat, p: Pos)
    requires Valid(g) && 1 <= player <= g.players
  {
    && Valid(g') && Claimed(g.board, g'.board, p, player)
    && g'.players == g.players && g'.maxAreas == g.maxAreas
    && g'.freeFields == Wrap64(g.freeFields - 1)
    && g'.ledgers[player].busy == Wrap64(g.ledgers[player].busy + 1)
    && g'.ledgers[player].usedGolden == g.ledgers[player].usedGolden
    && forall q :: 0 <= q <= g.players && q != player ==>
         g'.ledgers[q] == g.ledgers[q].(freeAdjacent := g'.ledgers[q].freeAdjacent)
  }

  /** `gamma_move`. It answers whether the move was made; a refused move
      changes nothing. */
  method Move(g: Game, player: nat, x: nat, y: nat) returns (ok: bool, g': Game)
    requires Valid(g) && MoveDefined(g, player, x, y)
    ensures ok <==> MoveLegal(g, player, x, y)
    ensures !ok ==> g' == g
    ensures ok ==> Played(g, g', player, Pos(x, y))
    ensures ok && SingleArea(g.board, player, Pos(x, y)) ==> IsolatedOutcome(g, g', player, Pos(x, y))
    ensures ok && !SingleArea(g.board, player, Pos(x, y)) ==> MergedOutcome(g, g', player, Pos(x, y))
    ensures ok && Invariant(g) ==> Invariant(g')
    ensures ok && Capped(g) &&
      (SingleArea(g.board, player, Pos(x, y)) ||
       1 <= CountAreas(g.board, player, Pos(x, y)) <= g.ledgers[player].currentAreas + 1)
      ==> Capped(g')
  {
    var p := Pos(x, y);
    if !(1 <= player <= g.players && x < g.board.width && y < g.board.height) {
      return false, g;
    }
    if g.board.At(p).owner != 0 {
      return false, g;
    }
    if SingleArea(g.board, player, p) {
      if g.ledgers[player].currentAreas >= g.maxAreas {
        return false, g;
      }
      g' := MoveIsolated(g, player, p);
    } else {
      g' := MoveMerged(g, player, p);
    }
    ok := true;
  }

  /** The branch of `gamma_move_possible` for a cell with no neighbour of
      the player, followed by the rest of `gamma_move`. */
  method MoveIsolated(g: Game, player: nat, p: Pos) returns (g': Game)
    requires Valid(g) && 1 <= player <= g.players && g.board.Contains(p) && g.board.At(p).owner == 0
    requires SingleArea(g.board, player, p) && g.ledgers[player].currentAreas < g.maxAreas
    requires HasFreeSlot(g.ledgers[player])
    ensures Played(g, g', player, p) && IsolatedOutcome(g, g', player, p)
    ensures Invariant(g) ==> Invariant(g')
    ensures Capped(g) ==> Capped(g')
  {
    var l := g.ledgers[player];
    var r := NextFreeAreaNumber(l);
    var b1 := g.board.SetArea(p, r);
    var l1 := l.(currentAreas := l.currentAreas + 1,
                 areaNumber := l.areaNumber[r := r],
                 areaSize := l.areaSize[r := Wrap64(l.areaSize[r] + 1)]);
    IsolatedStep(g, player, p, r, b1, l1);
    g' := UpdateAdjacentFields(Occupy(g, b1, l1, player, p), player, p);
  }

  /** Everything `gamma_move` does after an isolated cell got the fresh id `r`. */
  lemma IsolatedStep(g: Game, player: nat, p: Pos, r: nat, b1: Board, l1: Ledger)
    requires Valid(g) && 1 <= player <= g.players && g.board.Contains(p) && g.board.At(p).owner == 0
    requires SingleArea(g.board, player, p) && g.ledgers[player].currentAreas < g.maxAreas
    requires 1 <= r < |g.ledgers[player].areaNumber| && g.ledgers[player].areaNumber[r] == 0
    requires forall i :: 1 <= i < r ==> g.ledgers[player].areaNumber[i] != 0
    requires b1 == g.board.SetArea(p, r)
    requires var l := g.ledgers[player];
      l1 == l.(currentAreas := l.currentAreas + 1,
               areaNumber := l.areaNumber[r := r],
               areaSize := l.areaSize[r := Wrap64(l.areaSize[r] + 1)])
    ensures Valid(g.(board := b1)) && b1.Contains(p) && LedgerShaped(l1, g.maxAreas)
    ensures CellFits(g, Cell(player, b1.At(p).area))
    ensures var g' := UpdateAdjacentFields(Occupy(g, b1, l1, player, p), player, p);
      && Played(g, g', player, p) && IsolatedOutcome(g, g', player, p)
      && (Invariant(g) ==> Invariant(g'))
      && (Capped(g) ==> Capped(g'))
  {
    IsolatedFits(g, p, r);
    var g' := UpdateAdjacentFields(Occupy(g, b1, l1, player, p), player, p);
    OccupyPlayed(g, b1, l1, player, p);
    IsolatedOutcomeHolds(g, g', player, p, r, l1);
    if Capped(g) {
      IsolatedCapped(g, g', player);
    }
    if Invariant(g) {
      IsolatedConsistent(g.board, player, p, r);
      OccupyKeepsInvariant(g, b1, l1, player, p);
    }
  }

  lemma IsolatedOutcomeHolds(g: Game, g': Game, player: nat, p: Pos, r: nat, l1: Ledger)
    requires Valid(g) && Valid(g') && g'.maxAreas == g.maxAreas && 1 <= player <= g.players
    requires |g'.ledgers| == |g.ledgers| && g.board.Contains(p)
    requires 1 <= r < |g.ledgers[player].areaNumber| && g.ledgers[player].areaNumber[r] == 0
    requires forall i :: 1 <= i < r ==> g.ledgers[player].areaNumber[i] != 0
    requires g'.board == g.board.SetArea(p, r).SetOwner(p, player)
    requires var l := g.ledgers[player];
      l1 == l.(currentAreas := l.currentAreas + 1,
               areaNumber := l.areaNumber[r := r],
               areaSize := l.areaSize[r := Wrap64(l.areaSize[r] + 1)])
    requires g'.ledgers[player].currentAreas == l1.currentAreas
    requires g'.ledgers[player].areaNumber == l1.areaNumber && g'.ledgers[player].areaSize == l1.areaSize
    ensures IsolatedOutcome(g, g', player, p)
  {
  }

  lemma IsolatedCapped(g: Game, g': Game, player: nat)
    requires Valid(g) && Valid(g') && Capped(g) && 1 <= player <= g.players && g'.players == g.players
    requires g'.maxAreas == g.maxAreas && g'.ledgers[player].currentAreas <= g.maxAreas
    requires forall q :: 0 <= q <= g.players && q != player ==>
      g'.ledgers[q] == g.ledgers[q].(freeAdjacent := g'.ledgers[q].freeAdjacent)
    ensures Capped(g')
  {
    forall q | 1 <= q <= g'.players ensures g'.ledgers[q].currentAreas <= g'.maxAreas {
      if q != player {
        assert g'.ledgers[q].currentAreas == g.ledgers[q].currentAreas;
      }
    }
  }

  /** The branch of `gamma_move_possible` that joins the player's areas
      around the cell, followed by the rest of `gamma_move`. */
  method MoveMerged(g: Game, player: nat, p: Pos) returns (g': Game)
    requires Valid(g) && 1 <= player <= g.players && g.board.Contains(p) && g.board.At(p).owner == 0
    requires Mergeable(g.board, g.ledgers[player], player, p)
    ensures Played(g, g', player, p) && MergedOutcome(g, g', player, p)
    ensures Invariant(g) ==> Invariant(g')
    ensures Capped(g) && 1 <= CountAreas(g.board, player, p) <= g.ledgers[player].currentAreas + 1 ==> Capped(g')
  {
    var l := g.ledgers[player];
    var b1, l1 := GammaUpdateArea(g.board, l, player, p, false);
    MergeStep(g, player, p, b1, l1);
    g' := UpdateAdjacentFields(Occupy(g, b1, l1, player, p), player, p);
  }

  lemma MergedOutcomeHolds(g: Game, g': Game, player: nat, p: Pos, b1: Board, l1: Ledger)
    requires Valid(g) && Valid(g') && g'.maxAreas == g.maxAreas && 1 <= player <= g.players
    requires |g'.ledgers| == |g.ledgers| && g.board.Contains(p) && g.board.At(p).owner == 0
    requires Mergeable(g.board, g.ledgers[player], player, p)
    requires Relabelled(g.board, g.ledgers[player], player, p, b1)
    requires Recounted(g.board, g.ledgers[player], player, p, false, l1)
    requires g'.board == b1.SetOwner(p, player)
    requires g'.ledgers[player].currentAreas == l1.currentAreas
    requires g'.ledgers[player].areaNumber == l1.areaNumber && g'.ledgers[player].areaSize == l1.areaSize
    ensures MergedOutcome(g, g', player, p)
  {
    ReleasedSlotsTables(g.board, g.ledgers[player], player, p, l1, g'.ledgers[player]);
  }

  /** Everything `gamma_move` does after `gamma_update_area` has merged the
      areas around `p`. */
  lemma MergeStep(g: Game, player: nat, p: Pos, b1: Board, l1: Ledger)
    requires Valid(g) && 1 <= player <= g.players && g.board.Contains(p) && g.board.At(p).owner == 0
    requires Mergeable(g.board, g.ledgers[player], player, p)
    requires Relabelled(g.board, g.ledgers[player], player, p, b1)
    requires Recounted(g.board, g.ledgers[player], player, p, false, l1)
    ensures Valid(g.(board := b1)) && b1.Contains(p) && LedgerShaped(l1, g.maxAreas)
    ensures CellFits(g, Cell(player, b1.At(p).area))
    ensures var g' := UpdateAdjacentFields(Occupy(g, b1, l1, player, p), player, p);
      && Played(g, g', player, p) && MergedOutcome(g, g', player, p)
      && (Invariant(g) ==> Invariant(g'))
      && (Capped(g) && 1 <= CountAreas(g.board, player, p) <= g.ledgers[player].currentAreas + 1 ==> Capped(g'))
  {
    var l := g.ledgers[player];
    MergedFits(g, b1, player, p);
    var g' := UpdateAdjacentFields(Occupy(g, b1, l1, player, p), player, p);
    OccupyPlayed(g, b1, l1, player, p);
    assert MergedOutcome(g, g', player, p) by {
      MergedOutcomeHolds(g, g', player, p, b1, l1);
    }
    if Capped(g) && 1 <= CountAreas(g.board, player, p) <= l.currentAreas + 1 {
      assert Capped(g') by {
        IsolatedCapped(g, g', player);
      }
    }
    if Invariant(g) {
      assert Invariant(g') by {
        MergedConsistent(g.board, b1, player, p, SurvivingId(g.board, l, player, p));
        OccupyKeepsInvariant(g, b1, l1, player, p);
      }
    }
  }

  lemma OccupyPlayed(g: Game, b1: Board, l1: Ledger, player: nat, p: Pos)
    requires Valid(g) && 1 <= player <= g.players && g.board.Contains(p)
    requires Valid(g.(board := b1)) && SameOwners(g.board, b1)
    requires CellFits(g, Cell(player, b1.At(p).area)) && LedgerShaped(l1, g.maxAreas)
    requires l1.busy == g.ledgers[player].busy && l1.usedGolden == g.ledgers[player].usedGolden
    ensures var g' := UpdateAdjacentFields(Occupy(g, b1, l1, player, p), player, p);
      Played(g, g', player, p) && g'.board == b1.SetOwner(p, player) &&
      g'.ledgers[player].currentAreas == l1.currentAreas &&
      g'.ledgers[player].areaNumber == l1.areaNumber && g'.ledgers[player].areaSize == l1.areaSize
  {
    var g1 := Occupy(g, b1, l1, player, p);
    PlayedAfterCaches(g, b1, l1, g1, UpdateAdjacentFields(g1, player, p), player, p);
  }

  lemma PlayedAfterCaches(g: Game, b1: Board, l1: Ledger, g1: Game, g': Game, player: nat, p: Pos)
    requires Valid(g) && 1 <= player <= g.players && g.board.Contains(p)
    requires b1.Valid() && SameOwners(g.board, b1) && Valid(g1) && Valid(g')
    requires l1.busy == g.ledgers[player].busy && l1.usedGolden == g.ledgers[player].usedGolden
    requires g1.board == b1.SetOwner(p, player)
    requires g1.players == g.players && g1.maxAreas == g.maxAreas
    requires g1.freeFields == Wrap64(g.freeFields - 1)
    requires g1.ledgers == g.ledgers[player := l1.(busy := Wrap64(l1.busy + 1))]
    requires OnlyCaches(g1, g')
    ensures Played(g, g', player, p) && g'.board == b1.SetOwner(p, player) &&
      g'.ledgers[player].currentAreas == l1.currentAreas &&
      g'.ledgers[player].areaNumber == l1.areaNumber && g'.ledgers[player].areaSize == l1.areaSize
  {
    assert g'.ledgers[player] == g1.ledgers[player].(freeAdjacent := g'.ledgers[player].freeAdjacent);
    forall q | 0 <= q <= g.players && q != player
      ensures g'.ledgers[q] == g.ledgers[q].(freeAdjacent := g'.ledgers[q].freeAdjacent)
    {
      assert g1.ledgers[q] == g.ledgers[q];
    }
  }

  lemma IsolatedFits(g: Game, p: Pos, r: nat)
    requires Valid(g) && g.board.Contains(p) && g.board.At(p).owner == 0 && r < TableSize(g.maxAreas)
    ensures Valid(g.(board := g.board.SetArea(p, r)))
  {
    var g1 := g.(board := g.board.SetArea(p, r));
    forall q | q in g1.board.AllPos() ensures CellFits(g1, g1.board.At(q)) {
      ValidCell(g, q);
    }
  }

  lemma MergedFits(g: Game, b1: Board, player: nat, p: Pos)
    requires Valid(g) && 1 <= player <= g.players && g.board.Contains(p) && g.board.At(p).owner == 0
    requires Mergeable(g.board, g.ledgers[player], player, p)
    requires Relabelled(g.board, g.ledgers[player], player, p, b1)
    ensures b1.Valid() && SameOwners(g.board, b1)
    ensures Valid(g.(board := b1)) && b1.At(p).area < TableSize(g.maxAreas)
  {
    var g1 := g.(board := b1);
    forall q | q in g1.board.AllPos() ensures CellFits(g1, g1.board.At(q)) {
      ValidCell(g, q);
    }
  }

  lemma IsolatedConsistent(b: Board, player: nat, p: Pos, r: nat)
    requires b.Valid() && b.Contains(p) && Consistent(b) && SingleArea(b, player, p)
    ensures Consistent(b.SetArea(p, r).SetOwner(p, player))
  {
    var b1 := b.SetArea(p, r);
    ClaimKeepsConsistent(b1, p, player);
  }

  lemma MergedConsistent(b: Board, b1: Board, player: nat, p: Pos, s: nat)
    requires b.Valid() && b1.Valid() && b.Contains(p) && SameOwners(b, b1) && Consistent(b)
    requires forall q :: b.Contains(q) ==>
      b1.At(q) == if q == p then Cell(b.At(p).owner, s)
                  else if q in Merged(b, player, p) then Cell(player, s)
                  else b.At(q)
    ensures Consistent(b1.SetOwner(p, player))
  {
    ConsistentIsAway(b, p);
    MergeKeepsConsistent(b, b1, player, p, s);
    ClaimKeepsConsistent(b1, p, player);
  }

  /** Every player owns at most all cells of the board. */
  lemma CellsBound(b: Board, q: nat)
    requires b.Valid()
    ensures |b.CellsOf(q)| <= b.width * b.height
  {
    AllPosCard(b);
    SubsetCard(b.CellsOf(q), b.AllPos());
  }

  /** Claiming a free cell keeps the counters in step with the board. */
  lemma OccupyCounts(g: Game, b1: Board, g1: Game, player: nat, p: Pos)
    requires Valid(g) && Counts(g) && 1 <= player <= g.players && g.board.Contains(p) && g.board.At(p).owner == 0
    requires b1.Valid() && SameOwners(g.board, b1) && Valid(g1) && g1.board == b1.SetOwner(p, player)
    requires g1.players == g.players && g1.freeFields == Wrap64(g.freeFields - 1)
    requires g1.ledgers[player].busy == Wrap64(g.ledgers[player].busy + 1)
    requires forall q :: 1 <= q <= g.players && q != player ==> g1.ledgers[q].busy == g.ledgers[q].busy
    ensures Counts(g1)
  {
    assert g1.freeFields == |g1.board.CellsOf(0)| by {
      ClaimedCells(g.board, b1, player, p, 0);
      RemoveSize(g.board.CellsOf(0), p);
      CellsBound(g.board, 0);
      ProductFits(g.board.width, g.board.height);
    }
    forall q | 1 <= q <= g1.players
      ensures g1.ledgers[q].busy == |g1.board.CellsOf(q)|
    {
      ClaimedCells(g.board, b1, player, p, q);
      if q == player {
        CellsBound(g.board, player);
        ProductFits(g.board.width, g.board.height);
      } else {
        RemoveSize(g.board.CellsOf(q), p);
      }
    }
  }

  lemma ClaimedCells(b: Board, b1: Board, player: nat, p: Pos, q: nat)
    requires b.Valid() && b1.Valid() && SameOwners(b, b1) && b.Contains(p)
    ensures b1.SetOwner(p, player).CellsOf(q) ==
      if q == player then b.CellsOf(q) + {p} else b.CellsOf(q) - {p}
  {
    SetOwnerCells(b1, p, player, q);
    SameOwnersCells(b, b1, q);
  }

  /** Counters, board and ids do not depend on the counts of free
      neighbouring cells. */
  lemma CountsOnlyCaches(g: Game, g': Game)
    requires Valid(g) && Valid(g') && OnlyCaches(g, g') && Counts(g)
    ensures Counts(g')
  {
    forall q | 1 <= q <= g'.players ensures g'.ledgers[q].busy == |g'.board.CellsOf(q)| {
      assert g'.ledgers[q].busy == g.ledgers[q].busy;
    }
  }

  lemma OccupyKeepsInvariant(g: Game, b1: Board, l1: Ledger, player: nat, p: Pos)
    requires Invariant(g) && 1 <= player <= g.players && g.board.Contains(p) && g.board.At(p).owner == 0
    requires Valid(g.(board := b1)) && SameOwners(g.board, b1)
    requires CellFits(g, Cell(player, b1.At(p).area)) && LedgerShaped(l1, g.maxAreas)
    requires l1.busy == g.ledgers[player].busy && l1.freeAdjacent == g.ledgers[player].freeAdjacent
    requires Consistent(b1.SetOwner(p, player))
    ensures Invariant(UpdateAdjacentFields(Occupy(g, b1, l1, player, p), player, p))
  {
    var g1 := Occupy(g, b1, l1, player, p);
    assert g1.ledgers[player] == l1.(busy := Wrap64(l1.busy + 1));
    assert Caches(g1) == Caches(g);
    OccupyCounts(g, b1, g1, player, p);
    InvariantAfterCaches(g, g1, player, p);
  }

  lemma InvariantAfterCaches(g: Game, g1: Game, player: nat, p: Pos)
    requires Invariant(g) && 1 <= player <= g.players && g.board.Contains(p) && g.board.At(p).owner == 0
    requires Valid(g1) && Counts(g1) && Consistent(g1.board) && Claimed(g.board, g1.board, p, player)
    requires g1.players == g.players && Caches(g1) == Caches(g)
    ensures Invariant(UpdateAdjacentFields(g1, player, p))
  {
    MoveKeepsCacheExact(g, g1, player, p);
    CountsOnlyCaches(g1, UpdateAdjacentFields(g1, player, p));
  }
}
