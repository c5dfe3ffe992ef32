/** The board: a `width × height` array of cells addressed `[x][y]`, as in
    the C `field_t` matrix. The `visited` flag of `field_t` is not a cell
    field here: traversals carry the set of flagged cells explicitly. */
module Grid {

  /** Owner 0 means unclaimed; `area` is an index into the owner's tables. */
  datatype Cell = Cell(owner: nat, area: nat)

  datatype Pos = Pos(x: int, y: int)

  function Left(p: Pos): Pos { Pos(p.x - 1, p.y) }
  function Right(p: Pos): Pos { Pos(p.x + 1, p.y) }
  function Down(p: Pos): Pos { Pos(p.x, p.y - 1) }
  function Up(p: Pos): Pos { Pos(p.x, p.y + 1) }

  /** 4-adjacency. */
  predicate Adjacent(p: Pos, q: Pos)
  {
    q == Left(p) || q == Right(p) || q == Down(p) || q == Up(p)
  }

  /** A subset is no larger than the set that holds it. */
  lemma SubsetCard<T>(a: set<T>, c: set<T>)
    requires a <= c
    ensures |a| <= |c|
  {
    assert c == a + (c - a);
  }

  lemma AdjacentSymmetric(p: Pos, q: Pos)
    ensures Adjacent(p, q) <==> Adjacent(q, p)
  {
  }

  datatype Board = Board(width: nat, height: nat, cells: seq<seq<Cell>>)
  {
    predicate Valid()
    {
      |cells| == width && forall x :: 0 <= x < width ==> |cells[x]| == height
    }

    predicate Contains(p: Pos)
    {
      0 <= p.x < width && 0 <= p.y < height
    }

    function At(p: Pos): Cell
      requires Valid() && Contains(p)
    {
      cells[p.x][p.y]
    }

    /** In the board and owned by `player`. */
    predicate OwnedBy(p: Pos, player: nat)
      requires Valid()
    {
      Contains(p) && At(p).owner == player
    }

    function Set(p: Pos, c: Cell): (b: Board)
      requires Valid() && Contains(p)
      ensures b.Valid() && b.width == width && b.height == height
      ensures b.At(p) == c
      ensures forall q :: b.Contains(q) && q != p ==> b.At(q) == At(q)
    {
      Board(width, height, cells[p.x := cells[p.x][p.y := c]])
    }

    function SetOwner(p: Pos, owner: nat): (b: Board)
      requires Valid() && Contains(p)
      ensures b.Valid() && b.width == width && b.height == height
      ensures b.At(p) == Cell(owner, At(p).area)
      ensures forall q :: b.Contains(q) && q != p ==> b.At(q) == At(q)
    {
      Set(p, Cell(owner, At(p).area))
    }

    function SetArea(p: Pos, area: nat): (b: Board)
      requires Valid() && Contains(p)
      ensures b.Valid() && b.width == width && b.height == height
      ensures b.At(p) == Cell(At(p).owner, area)
      ensures forall q :: b.Contains(q) && q != p ==> b.At(q) == At(q)
    {
      Set(p, Cell(At(p).owner, area))
    }

    /** Every cell of the board. */
    function AllPos(): (s: set<Pos>)
      ensures forall p :: p in s <==> Contains(p)
    {
      set x, y | 0 <= x < width && 0 <= y < height :: Pos(x, y)
    }

    /** The cells owned by `player` (player 0: the unclaimed cells). */
    function CellsOf(player: nat): (s: set<Pos>)
      requires Valid()
      ensures forall p :: p in s <==> OwnedBy(p, player)
    {
      set p | p in AllPos() && At(p).owner == player
    }
  }

  /** A board of the given size with every cell unclaimed and in area 0. */
  function EmptyBoard(width: nat, height: nat): (b: Board)
    ensures b.Valid() && b.width == width && b.height == height
    ensures forall p :: b.Contains(p) ==> b.At(p) == Cell(0, 0)
  {
    Board(width, height, seq(width, _ => seq(height, _ => Cell(0, 0))))
  }

  /** Two boards of the same size whose cells have the same owners. */
  ghost predicate SameOwners(a: Board, b: Board)
    requires a.Valid() && b.Valid()
  {
    a.width == b.width && a.height == b.height &&
    forall p :: a.Contains(p) ==> a.At(p).owner == b.At(p).owner
  }

  lemma SameOwnersCells(a: Board, b: Board, player: nat)
    requires a.Valid() && b.Valid() && SameOwners(a, b)
    ensures a.CellsOf(player) == b.CellsOf(player)
  {
  }

  /** Giving one cell a new owner moves it from the old owner's cells to the
      new owner's and leaves every other player's cells alone. */
  lemma SetOwnerCells(b: Board, p: Pos, owner: nat, q: nat)
    requires b.Valid() && b.Contains(p)
    ensures var b' := b.SetOwner(p, owner);
      b'.CellsOf(q) ==
        if q == owner then b.CellsOf(q) + {p}
        else b.CellsOf(q) - {p}
  {
  }

  /** Handing a cell over and back leaves the board as it was. */
  lemma SetOwnerBack(b: Board, p: Pos, owner: nat)
    requires b.Valid() && b.Contains(p)
    ensures b.SetOwner(p, owner).SetOwner(p, b.At(p).owner) == b
  {
    var b2 := b.SetOwner(p, owner).SetOwner(p, b.At(p).owner);
    assert b2.cells[p.x] == b.cells[p.x];
    assert b2.cells == b.cells;
  }

  /** Cells `(x, y)` with `x < k` and `y < h`. */
  function Block(k: nat, h: nat): set<Pos>
  {
    set x, y | 0 <= x < k && 0 <= y < h :: Pos(x, y)
  }

  function Column(x: nat, h: nat): set<Pos>
  {
    set y | 0 <= y < h :: Pos(x, y)
  }

  lemma {:induction false} ColumnCard(x: nat, h: nat)
    ensures |Column(x, h)| == h
  {
    if h > 0 {
      ColumnCard(x, h - 1);
      assert Column(x, h) == Column(x, h - 1) + {Pos(x, h - 1)};
    }
  }

  /** The last column splits off a block. */
  lemma BlockSplit(k: nat, h: nat)
    requires k > 0
    ensures Block(k, h) == Block(k - 1, h) + Column(k - 1, h)
    ensures Block(k - 1, h) !! Column(k - 1, h)
  {
    forall p | p in Block(k, h) ensures p in Block(k - 1, h) + Column(k - 1, h) {
      if p.x < k - 1 {
        assert p in Block(k - 1, h);
      } else {
        assert p in Column(k - 1, h);
      }
    }
  }

  lemma {:induction false} BlockCard(k: nat, h: nat)
    ensures |Block(k, h)| == k * h
  {
    if k > 0 {
      BlockCard(k - 1, h);
      ColumnCard(k - 1, h);
      BlockSplit(k, h);
      assert k * h == (k - 1) * h + h;
    }
  }

  /** The board has `width * height` cells. */
  lemma AllPosCard(b: Board)
    ensures |b.AllPos()| == b.width * b.height
  {
    BlockCard(b.width, b.height);
    assert b.AllPos() == Block(b.width, b.height);
  }
}
