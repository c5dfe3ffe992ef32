/** The connectivity oracle of the engine: `count_areas`, `bfs`,
    `reset_visited` and `set_new_area_number`. Every traversal returns the set
    of cells it leaves flagged, which the contracts prove empty. */
module Bfs {
  import opened Grid
  import opened Paths
  import opened Traversal

  /** Area id a neighbour contributes to `count_areas`: its id when it is on
      the board and owned by `player`, 0 otherwise. */
  function NeighbourId(b: Board, player: nat, n: Pos): nat
    requires b.Valid()
  {
    if b.OwnedBy(n, player) then b.At(n).area else 0
  }

  /** The ids `count_areas` reads around `p`, in its order up, left, right, down. */
  function NeighbourIdList(b: Board, player: nat, p: Pos): (a: seq<nat>)
    requires b.Valid()
    ensures |a| == 4
  {
    [NeighbourId(b, player, Up(p)), NeighbourId(b, player, Left(p)),
     NeighbourId(b, player, Right(p)), NeighbourId(b, player, Down(p))]
  }

  /** The distinct nonzero area ids of `player`'s cells around `p`. */
  function NeighbourIds(b: Board, player: nat, p: Pos): set<nat>
    requires b.Valid()
  {
    var a := NeighbourIdList(b, player, p);
    set i | 0 <= i < 4 && a[i] != 0 :: a[i]
  }

  /** How many of `a[1..k]` do not occur earlier in `a` (the counting loop
      of `count_areas`). */
  function NewValues(a: seq<nat>, k: nat): nat
    requires k <= |a|
  {
    if k <= 1 then 0 else NewValues(a, k - 1) + (if a[k - 1] in a[..k - 1] then 0 else 1)
  }

  lemma {:induction false} NewValuesCountsSet(a: seq<nat>, k: nat)
    requires 1 <= k <= |a|
    ensures NewValues(a, k) + 1 == |set i | 0 <= i < k :: a[i]|
  {
    if k == 1 {
      assert (set i | 0 <= i < 1 :: a[i]) == {a[0]};
    } else {
      NewValuesCountsSet(a, k - 1);
      var prev := set i | 0 <= i < k - 1 :: a[i];
      var cur := set i | 0 <= i < k :: a[i];
      assert cur == prev + {a[k - 1]};
      assert a[k - 1] in a[..k - 1] <==> a[k - 1] in prev by {
        if a[k - 1] in a[..k - 1] {
          var j :| 0 <= j < k - 1 && a[..k - 1][j] == a[k - 1];
          assert a[j] == a[k - 1];
        }
      }
    }
  }

  /** `count_areas`: the number of different area ids among the player's
      neighbours of `p`. */
  function CountAreas(b: Board, player: nat, p: Pos): (r: nat)
    requires b.Valid()
    ensures r == |NeighbourIds(b, player, p)|
    ensures r <= 4
  {
    var a := NeighbourIdList(b, player, p);
    var r := (if 0 in a then 0 else 1) + NewValues(a, 4);
    CountAreasIsSetSize(a, NeighbourIds(b, player, p));
    r
  }

  lemma CountAreasIsSetSize(a: seq<nat>, ids: set<nat>)
    requires |a| == 4 && ids == set i | 0 <= i < 4 && a[i] != 0 :: a[i]
    ensures (if 0 in a then 0 else 1) + NewValues(a, 4) == |ids|
    ensures |ids| <= 4
  {
    var all := set i | 0 <= i < 4 :: a[i];
    NewValuesCountsSet(a, 4);
    assert ids == all - {0};
    assert 0 in a <==> 0 in all by {
      if 0 in a {
        var i :| 0 <= i < 4 && a[i] == 0;
      }
    }
    if 0 in all {
      assert all == ids + {0};
    }
    FourCard(a, all);
  }

  lemma FourCard(a: seq<nat>, all: set<nat>)
    requires |a| == 4 && all == set i | 0 <= i < 4 :: a[i]
    ensures |all| <= 4
  {
    assert all == {a[0]} + {a[1]} + {a[2]} + {a[3]};
  }

  /** Cells owned by `player` that carry id `area`: the cells `bfs` may step on. */
  function AreaCells(b: Board, player: nat, area: nat): (s: set<Pos>)
    requires b.Valid()
    ensures forall p :: p in s <==> b.OwnedBy(p, player) && b.At(p).area == area
  {
    set p | p in b.AllPos() && b.At(p).owner == player && b.At(p).area == area
  }

  /** `reset_visited`: a search from `start` through the flagged cells that
      clears every flag it meets. Flags it cannot reach stay set. */
  method ResetVisited(b: Board, marks: set<Pos>, start: Pos) returns (marks': set<Pos>)
    requires b.Valid() && b.Contains(start)
    requires forall p :: p in marks ==> b.Contains(p)
    ensures forall p :: p in marks' <==> p in marks && p != start && !Reach(marks, start, p)
  {
    var _, cleared := Traverse(b, marks, start, false, start);
    marks' := marks - cleared;
    ReachSelf(marks, start);
  }

  /** Flags set by a search from `start` are all reached again by the reset
      that follows it, so none survive. */
  lemma ResetClearsSearch(marks: set<Pos>, start: Pos, marks': set<Pos>)
    requires forall p :: p in marks ==> Reach(marks, start, p)
    requires forall p :: p in marks' <==> p in marks && p != start && !Reach(marks, start, p)
    ensures marks' == {}
  {
  }

  /** `bfs`: can `end` be reached from `begin` by 4-adjacent steps through
      cells owned by `player` with id `area`? `begin` itself need not qualify.
      The returned flags are those left set on exit. */
  method Search(b: Board, player: nat, begin: Pos, end: Pos, area: nat) returns (found: bool, marks: set<Pos>)
    requires b.Valid() && b.Contains(begin) && b.Contains(end)
    ensures begin == end ==> found
    ensures begin != end ==> (found <==> Reach(AreaCells(b, player, area), begin, end))
    ensures marks == {}
  {
    if begin == end {
      return true, {};
    }
    var seen;
    found, seen := Traverse(b, AreaCells(b, player, area), begin, true, end);
    marks := ResetVisited(b, seen, begin);
    ResetClearsSearch(seen, begin, marks);
  }

  /** The board with every cell of `s` given id `area` (owners unchanged). */
  function Relabel(b: Board, s: set<Pos>, area: nat): (b': Board)
    requires b.Valid()
    ensures b'.Valid() && SameOwners(b, b')
    ensures forall p :: b.Contains(p) ==>
      b'.At(p) == if p in s then Cell(b.At(p).owner, area) else b.At(p)
  {
    Board(b.width, b.height,
      seq(b.width, x requires 0 <= x < b.width =>
        seq(b.height, y requires 0 <= y < b.height =>
          if Pos(x, y) in s then Cell(b.cells[x][y].owner, area) else b.cells[x][y])))
  }

  /** The 4-connected component of `player`'s cells that holds `start`. */
  ghost function Component(b: Board, player: nat, start: Pos): set<Pos>
    requires b.Valid()
  {
    set p | p in b.AllPos() && Reach(b.CellsOf(player), start, p)
  }

  /** `set_new_area_number`: gives id `area` to the component of `player`'s
      cells that holds `start`, then clears its flags. The C loop writes each
      id as it flags the cell; the search reads only owners and flags, so
      writing them all once the search ends gives the same board. */
  method SetNewAreaNumber(b: Board, start: Pos, player: nat, area: nat) returns (b': Board, marks: set<Pos>)
    requires b.Valid()
    ensures b'.Valid() && SameOwners(b, b')
    ensures !b.OwnedBy(start, player) ==> b' == b
    ensures b.OwnedBy(start, player) ==> forall p :: b.Contains(p) ==>
      b'.At(p) == if p in Component(b, player, start) then Cell(player, area) else b.At(p)
    ensures marks == {}
  {
    if !b.Contains(start) || b.At(start).owner != player {
      return b, {};
    }
    var _, seen := Traverse(b, b.CellsOf(player), start, false, start);
    ReachSelf(b.CellsOf(player), start);
    assert seen == Component(b, player, start) by {
      forall p | p in seen ensures b.Contains(p) { }
    }
    b' := Relabel(b, seen, area);
    marks := ResetVisited(b, seen, start);
    ResetClearsSearch(seen, start, marks);
    forall p | p in seen ensures b.At(p).owner == player {
      assert p in b.CellsOf(player) + {start};
    }
  }
}
