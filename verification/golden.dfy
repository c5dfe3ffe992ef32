/** The golden move: `golden_count_areas` with `same_area_unconnected`,
    `gamma_golden_possible_on_field`, `gamma_golden_possible` and
    `gamma_golden_move`. A player may once in a game take a cell of another
    player, provided neither player ends up over the area limit. */
module Golden {
  import opened Machine
  import opened Grid
  import opened Paths
  import opened Bfs
  import opened State
  import opened Areas
  import opened Adjacency
  import opened Exactness
  import opened Rules
  import opened Engine

  function Ind(c: bool): nat
  {
    if c then 1 else 0
  }

  /** On the board `b1` where the captured cell has changed hands, the old
      owner's cells `a` and `c` carry the same id and no walk through cells
      of that id joins them any more. */
  ghost predicate Severed(b1: Board, oldPlayer: nat, a: Pos, c: Pos)
    requires b1.Valid()
  {
    b1.OwnedBy(a, oldPlayer) && b1.OwnedBy(c, oldPlayer) && b1.At(a).area == b1.At(c).area &&
    !Reach(AreaCells(b1, oldPlayer, b1.At(c).area), a, c)
  }

  /** How many of the six pairs of neighbours of `p` are severed. */
  ghost function SeveredPairs(b1: Board, oldPlayer: nat, p: Pos): nat
    requires b1.Valid()
  {
    Ind(Severed(b1, oldPlayer, Up(p), Left(p))) + Ind(Severed(b1, oldPlayer, Up(p), Right(p))) +
    Ind(Severed(b1, oldPlayer, Up(p), Down(p))) + Ind(Severed(b1, oldPlayer, Left(p), Right(p))) +
    Ind(Severed(b1, oldPlayer, Left(p), Down(p))) + Ind(Severed(b1, oldPlayer, Right(p), Down(p)))
  }

  /** The number of areas `golden_count_areas` reports for taking `p` from
      `oldPlayer` on behalf of `newPlayer`: nothing unless the old owner's neighbours of
      `p` carry exactly one id, else the severed pairs once `p` is `newPlayer`'s. */
  ghost function GoldenAreas(b: Board, oldPlayer: nat, newPlayer: nat, p: Pos): nat
    requires b.Valid() && b.Contains(p)
  {
    if CountAreas(b, oldPlayer, p) != 1 then 0 else SeveredPairs(b.SetOwner(p, newPlayer), oldPlayer, p)
  }

  /** `same_area_unconnected`: `a` and `c` carry the same id and the search
      through `player`'s cells of that id does not get from `a` to `c`. */
  method SameAreaUnconnected(b: Board, player: nat, a: Pos, c: Pos) returns (r: bool)
    requires b.Valid() && b.Contains(a) && b.Contains(c) && a != c
    ensures r <==> b.At(a).area == b.At(c).area && !Reach(AreaCells(b, player, b.At(c).area), a, c)
  {
    if b.At(a).area != b.At(c).area {
      return false;
    }
    var found, _ := Search(b, player, a, c, b.At(c).area);
    r := !found;
  }

  /** One pair test of `golden_count_areas` on the board with `p` handed over. */
  method CountPair(b1: Board, oldPlayer: nat, a: Pos, c: Pos, counter: nat) returns (counter': nat)
    requires b1.Valid() && a != c
    ensures counter' == counter + Ind(Severed(b1, oldPlayer, a, c))
  {
    counter' := counter;
    if b1.OwnedBy(a, oldPlayer) && b1.OwnedBy(c, oldPlayer) {
      var s := SameAreaUnconnected(b1, oldPlayer, a, c);
      if s {
        counter' := counter + 1;
      }
    }
  }

  /** `golden_count_areas`: hands `p` to `newPlayer` for the duration of the
      searches and gives it back; the board it returns is the one it got. */
  method GoldenCountAreas(b: Board, oldPlayer: nat, newPlayer: nat, p: Pos) returns (r: nat, b': Board)
    requires b.Valid() && b.Contains(p)
    ensures b' == b
    ensures r == GoldenAreas(b, oldPlayer, newPlayer, p)
    ensures CountAreas(b, oldPlayer, p) != 1 ==> r == 0
    ensures r <= 6
  {
    if CountAreas(b, oldPlayer, p) != 1 {
      return 0, b;
    }
    var original := b.At(p).owner;
    var b1 := b.SetOwner(p, newPlayer);
    r := CountPair(b1, oldPlayer, Up(p), Left(p), 0);
    r := CountPair(b1, oldPlayer, Up(p), Right(p), r);
    r := CountPair(b1, oldPlayer, Up(p), Down(p), r);
    r := CountPair(b1, oldPlayer, Left(p), Right(p), r);
    r := CountPair(b1, oldPlayer, Left(p), Down(p), r);
    r := CountPair(b1, oldPlayer, Right(p), Down(p), r);
    b' := b1.SetOwner(p, original);
    SetOwnerBack(b, p, newPlayer);
  }

  /** When `golden_count_areas` reports nothing and the old owner's
      neighbours of `p` carry one id, taking `p` leaves every two of them
      joined through cells of that id. (Neighbours with id 0 are invisible
      to `count_areas` and are not covered.) */
  lemma NoSeveredPairsKeepsJoined(b: Board, oldPlayer: nat, newPlayer: nat, p: Pos, a: Pos, c: Pos)
    requires b.Valid() && b.Contains(p) && CountAreas(b, oldPlayer, p) == 1 && GoldenAreas(b, oldPlayer, newPlayer, p) == 0
    requires a in {Up(p), Left(p), Right(p), Down(p)} && c in {Up(p), Left(p), Right(p), Down(p)}
    requires b.OwnedBy(a, oldPlayer) && b.OwnedBy(c, oldPlayer) && b.At(a).area != 0 && b.At(c).area != 0
    ensures b.At(a).area == b.At(c).area
    ensures var b1 := b.SetOwner(p, newPlayer); Reach(AreaCells(b1, oldPlayer, b1.At(c).area), a, c)
  {
    var b1 := b.SetOwner(p, newPlayer);
    SameIdAround(b, oldPlayer, p, a, c);
    if a == c {
      ReachSelf(AreaCells(b1, oldPlayer, b1.At(c).area), a);
    } else if !Reach(AreaCells(b1, oldPlayer, b1.At(c).area), a, c) {
      SeveredCounted(b1, oldPlayer, p, a, c);
      assert false;
    }
  }

  /** Two neighbours of `p` owned by `oldPlayer` with nonzero ids carry the same id
      when `count_areas` finds one id among them. */
  lemma SameIdAround(b: Board, oldPlayer: nat, p: Pos, a: Pos, c: Pos)
    requires b.Valid() && CountAreas(b, oldPlayer, p) == 1
    requires a in {Up(p), Left(p), Right(p), Down(p)} && c in {Up(p), Left(p), Right(p), Down(p)}
    requires b.OwnedBy(a, oldPlayer) && b.OwnedBy(c, oldPlayer) && b.At(a).area != 0 && b.At(c).area != 0
    ensures b.At(a).area == b.At(c).area
  {
    var ids := NeighbourIds(b, oldPlayer, p);
    var l := NeighbourIdList(b, oldPlayer, p);
    assert b.At(a).area in ids by {
      if a == Up(p) { assert l[0] == b.At(a).area; }
      else if a == Left(p) { assert l[1] == b.At(a).area; }
      else if a == Right(p) { assert l[2] == b.At(a).area; }
      else { assert l[3] == b.At(a).area; }
    }
    assert b.At(c).area in ids by {
      if c == Up(p) { assert l[0] == b.At(c).area; }
      else if c == Left(p) { assert l[1] == b.At(c).area; }
      else if c == Right(p) { assert l[2] == b.At(c).area; }
      else { assert l[3] == b.At(c).area; }
    }
    if b.At(a).area != b.At(c).area {
      SubsetCard({b.At(a).area, b.At(c).area}, ids);
    }
  }

  /** A severed pair of neighbours is counted. */
  lemma SeveredCounted(b1: Board, oldPlayer: nat, p: Pos, a: Pos, c: Pos)
    requires b1.Valid() && a in {Up(p), Left(p), Right(p), Down(p)} && c in {Up(p), Left(p), Right(p), Down(p)}
    requires a != c && Severed(b1, oldPlayer, a, c)
    ensures SeveredPairs(b1, oldPlayer, p) > 0
  {
    SeveredSymmetric(b1, oldPlayer, a, c);
  }

  lemma SeveredSymmetric(b1: Board, oldPlayer: nat, a: Pos, c: Pos)
    requires b1.Valid() && Severed(b1, oldPlayer, a, c)
    ensures Severed(b1, oldPlayer, c, a)
  {
    if Reach(AreaCells(b1, oldPlayer, b1.At(a).area), c, a) {
      ReachReverse(AreaCells(b1, oldPlayer, b1.At(a).area), c, a);
      assert false;
    }
  }

  /** The test of `gamma_golden_possible_on_field` once the areas the
      capture splits off are known: `p` is another player's cell, the new
      owner stays within the area limit when `p` is an area of its own, and
      the old owner either had `p` as an area of its own or stays within the
      limit with the split areas added (a 32-bit sum in the C code). */
  predicate CaptureTest(g: Game, newPlayer: nat, p: Pos, areas: nat)
    requires Valid(g) && newPlayer <= g.players && g.board.Contains(p)
  {
    ValidCell(g, p);
    var oldPlayer := g.board.At(p).owner;
    && oldPlayer != 0 && oldPlayer != newPlayer
    && (SingleArea(g.board, newPlayer, p) ==> g.ledgers[newPlayer].currentAreas < g.maxAreas)
    && (SingleArea(g.board, oldPlayer, p) || Wrap32(g.ledgers[oldPlayer].currentAreas + areas) <= g.maxAreas)
  }

  /** `newPlayer` may take `p`. */
  ghost predicate CanCapture(g: Game, newPlayer: nat, p: Pos)
    requires Valid(g) && newPlayer <= g.players && g.board.Contains(p)
  {
    CaptureTest(g, newPlayer, p, GoldenAreas(g.board, g.board.At(p).owner, newPlayer, p))
  }

  /** `gamma_golden_possible_on_field`. The C code counts the split areas
      before it looks at the owner; the count has no effect on the game. */
  method GoldenPossibleOnField(g: Game, newPlayer: nat, p: Pos) returns (r: bool)
    requires Valid(g) && newPlayer <= g.players && g.board.Contains(p)
    ensures r == CanCapture(g, newPlayer, p)
  {
    ValidCell(g, p);
    var oldPlayer := g.board.At(p).owner;
    var areas, _ := GoldenCountAreas(g.board, oldPlayer, newPlayer, p);
    r := OnField(g, newPlayer, p, areas);
  }

  /** The branches of `gamma_golden_possible_on_field` after the count. */
  method OnField(g: Game, newPlayer: nat, p: Pos, areas: nat) returns (r: bool)
    requires Valid(g) && newPlayer <= g.players && g.board.Contains(p)
    ensures r == CaptureTest(g, newPlayer, p, areas)
  {
    ValidCell(g, p);
    var oldPlayer := g.board.At(p).owner;
    if oldPlayer == newPlayer || oldPlayer == 0 {
      return false;
    }
    if SingleArea(g.board, newPlayer, p) {
      if g.ledgers[newPlayer].currentAreas >= g.maxAreas {
        return false;
      } else if !SingleArea(g.board, oldPlayer, p) &&
                Wrap32(g.ledgers[oldPlayer].currentAreas + areas) > g.maxAreas {
        return false;
      }
    } else {
      if !SingleArea(g.board, oldPlayer, p) &&
         Wrap32(g.ledgers[oldPlayer].currentAreas + areas) > g.maxAreas {
        return false;
      }
    }
    return true;
  }

  /** `gamma_golden_possible`: `player` (0 included) has not used its golden
      move, some cell is owned by another player by the field counters, and
      some cell can be taken. */
  ghost predicate GoldenAllowed(g: Game, player: nat)
    requires Valid(g)
  {
    && player <= g.players
    && !g.ledgers[player].usedGolden
    && Wrap64(g.freeFields + g.ledgers[player].busy) != g.board.width * g.board.height
    && exists p :: g.board.Contains(p) && CanCapture(g, player, p)
  }

  /** `gamma_golden_possible`. */
  method GoldenPossible(g: Game, player: nat) returns (r: bool)
    requires Valid(g)
    ensures r == GoldenAllowed(g, player)
  {
    if player > g.players {
      return false;
    }
    var boardSize := g.board.height * g.board.width;
    if g.ledgers[player].usedGolden || Wrap64(g.freeFields + g.ledgers[player].busy) == boardSize {
      return false;
    }
    r := FindCapture(g, player);
  }

  /** No cell before column `x`, nor below row `y` in column `x`, can be taken. */
  ghost predicate NoneBefore(g: Game, player: nat, x: nat, y: nat)
    requires Valid(g) && player <= g.players
  {
    forall q :: g.board.Contains(q) && (q.x < x || (q.x == x && q.y < y)) ==> !CanCapture(g, player, q)
  }

  /** The scan of `gamma_golden_possible`, column by column. */
  method FindCapture(g: Game, player: nat) returns (found: bool)
    requires Valid(g) && player <= g.players
    ensures found <==> exists p :: g.board.Contains(p) && CanCapture(g, player, p)
  {
    var x := 0;
    while x < g.board.width
      invariant 0 <= x <= g.board.width
      invariant NoneBefore(g, player, x, 0)
    {
      var y := 0;
      while y < g.board.height
        invariant 0 <= y <= g.board.height
        invariant NoneBefore(g, player, x, y)
      {
        var on := GoldenPossibleOnField(g, player, Pos(x, y));
        if on {
          return true;
        }
        NoneBeforeStep(g, player, x, y);
        y := y + 1;
      }
      NoneBeforeColumn(g, player, x);
      x := x + 1;
    }
    NoneBeforeAll(g, player);
    return false;
  }

  lemma NoneBeforeStep(g: Game, player: nat, x: nat, y: nat)
    requires Valid(g) && player <= g.players && g.board.Contains(Pos(x, y))
    requires NoneBefore(g, player, x, y) && !CanCapture(g, player, Pos(x, y))
    ensures NoneBefore(g, player, x, y + 1)
  {
  }

  lemma NoneBeforeColumn(g: Game, player: nat, x: nat)
    requires Valid(g) && player <= g.players && NoneBefore(g, player, x, g.board.height)
    ensures NoneBefore(g, player, x + 1, 0)
  {
  }

  lemma NoneBeforeAll(g: Game, player: nat)
    requires Valid(g) && player <= g.players && NoneBefore(g, player, g.board.width, 0)
    ensures !exists p :: g.board.Contains(p) && CanCapture(g, player, p)
  {
  }

  /** Under the counters' invariant the test on the field counters says
      exactly that some cell belongs to a player other than `player`. */
  lemma OpponentCell(g: Game, player: nat)
    requires Invariant(g) && 1 <= player <= g.players
    ensures Wrap64(g.freeFields + g.ledgers[player].busy) != g.board.width * g.board.height <==>
      exists p :: g.board.Contains(p) && g.board.At(p).owner != 0 && g.board.At(p).owner != player
  {
    var b := g.board;
    var mine := b.CellsOf(0) + b.CellsOf(player);
    AllPosCard(b);
    ProductFits(b.width, b.height);
    SubsetCard(mine, b.AllPos());
    assert b.CellsOf(0) !! b.CellsOf(player);
    assert |mine| == g.freeFields + g.ledgers[player].busy;
    if exists p :: b.Contains(p) && b.At(p).owner != 0 && b.At(p).owner != player {
      var p :| b.Contains(p) && b.At(p).owner != 0 && b.At(p).owner != player;
      SubsetCard(mine, b.AllPos() - {p});
      RemoveSize(b.AllPos(), p);
    } else {
      assert mine == b.AllPos();
    }
  }
}
