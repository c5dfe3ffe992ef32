/** Maintenance of `free_adjacent_fields`, each player's count of free cells
    next to one of its own: `is_single_neighbour`, `first_player_ocurrence`,
    `update_adjacent_fields` and `golden_update_adjacent_fields`.
    The C tests also require a neighbour's `visited` flag to be clear; every
    search leaves all flags clear, so that test always passes and is dropped. */
module Adjacency {
  import opened Machine
  import opened Grid
  import opened State

  /** The neighbours in the order the update routines visit them. */
  function Dirs(p: Pos): (d: seq<Pos>)
    ensures |d| == 4
  {
    [Left(p), Down(p), Right(p), Up(p)]
  }

  lemma DirsDistinct(p: Pos)
    ensures forall i, j :: 0 <= i < j < 4 ==> Dirs(p)[i] != Dirs(p)[j]
  {
  }

  lemma DirsAdjacent(p: Pos, n: Pos)
    ensures n in Dirs(p) <==> Adjacent(p, n)
  {
  }

  /** The neighbours of `n` that `player` owns. */
  function PlayerNeighbours(b: Board, player: nat, n: Pos): set<Pos>
    requires b.Valid()
  {
    set q | q in Dirs(n) && b.OwnedBy(q, player)
  }

  /** 1 when `q` is `player`'s, else 0. */
  function Owns(b: Board, player: nat, q: Pos): nat
    requires b.Valid()
  {
    if b.OwnedBy(q, player) then 1 else 0
  }

  lemma PlayerNeighboursCard(b: Board, player: nat, n: Pos)
    requires b.Valid()
    ensures |PlayerNeighbours(b, player, n)| ==
      Owns(b, player, Left(n)) + Owns(b, player, Down(n)) + Owns(b, player, Right(n)) + Owns(b, player, Up(n))
  {
    assert PlayerNeighbours(b, player, n) == b.CellsOf(player) * (set x | x in Dirs(n));
    DirsDistinct(n);
    CountInDistinct(Dirs(n), b.CellsOf(player));
    CountInFour(Dirs(n), b.CellsOf(player));
  }

  lemma CountInFour(s: seq<Pos>, t: set<Pos>)
    requires |s| == 4
    ensures CountIn(s, t) == (if s[0] in t then 1 else 0) + (if s[1] in t then 1 else 0) +
                             (if s[2] in t then 1 else 0) + (if s[3] in t then 1 else 0)
  {
    assert s[..3][..2] == s[..2];
    assert s[..2][..1] == s[..1];
    assert s[..1][..0] == [];
    assert CountIn(s[..1], t) == (if s[0] in t then 1 else 0);
    assert CountIn(s[..2], t) == CountIn(s[..1], t) + (if s[1] in t then 1 else 0);
    assert CountIn(s[..3], t) == CountIn(s[..2], t) + (if s[2] in t then 1 else 0);
    assert s[..4] == s;
  }

  /** `is_single_neighbour`: exactly one neighbour of `n` is `player`'s. */
  function IsSingleNeighbour(b: Board, player: nat, n: Pos): (r: bool)
    requires b.Valid()
    ensures r <==> |PlayerNeighbours(b, player, n)| == 1
  {
    var counter := Owns(b, player, Left(n)) + Owns(b, player, Down(n)) +
                   Owns(b, player, Right(n)) + Owns(b, player, Up(n));
    PlayerNeighboursCard(b, player, n);
    counter == 1
  }

  /** `first_player_ocurrence`: entry `i` of the owner list does not occur
      before it. */
  function FirstPlayerOccurrence(nbrs: seq<nat>, i: nat): (r: bool)
    requires |nbrs| == 4
    ensures i < 4 ==> (r <==> nbrs[i] !in nbrs[..i])
  {
    if i == 0 then true
    else if i == 1 then nbrs[1] != nbrs[0]
    else if i == 2 then nbrs[2] != nbrs[1] && nbrs[2] != nbrs[0]
    else if i == 3 then nbrs[3] != nbrs[2] && nbrs[3] != nbrs[1] && nbrs[3] != nbrs[0]
    else true
  }

  /** Owner of a neighbour, 0 off the board. */
  function OwnerOr0(b: Board, n: Pos): nat
    requires b.Valid()
  {
    if b.Contains(n) then b.At(n).owner else 0
  }

  /** `initialize_neighbours`: owners of the neighbours in `Dirs` order. */
  function NeighbourOwners(b: Board, p: Pos): (nbrs: seq<nat>)
    requires b.Valid()
    ensures |nbrs| == 4 && forall i :: 0 <= i < 4 ==> nbrs[i] == OwnerOr0(b, Dirs(p)[i])
  {
    [OwnerOr0(b, Left(p)), OwnerOr0(b, Down(p)), OwnerOr0(b, Right(p)), OwnerOr0(b, Up(p))]
  }

  /** Some neighbour of `n` is `player`'s. */
  predicate Touches(b: Board, player: nat, n: Pos)
    requires b.Valid()
  {
    b.OwnedBy(Left(n), player) || b.OwnedBy(Down(n), player) ||
    b.OwnedBy(Right(n), player) || b.OwnedBy(Up(n), player)
  }

  /** The free cells next to a cell of `player`: what `free_adjacent_fields`
      counts. */
  function Frontier(b: Board, player: nat): set<Pos>
    requires b.Valid()
  {
    set q | q in b.AllPos() && b.At(q).owner == 0 && Touches(b, player, q)
  }

  /** The cache of every player holds the size of its frontier, and slot 0
      holds 0. */
  ghost predicate CacheExact(g: Game)
    requires Valid(g)
  {
    Cache(g, 0) == 0 &&
    forall q :: 1 <= q <= g.players ==> Cache(g, q) == |Frontier(g.board, q)|
  }

  /** Free neighbours of `p` for which `p` is the only cell of `player`
      around them. */
  function SinglesSet(b: Board, player: nat, p: Pos): set<Pos>
    requires b.Valid()
  {
    set n | n in Dirs(p) && JoinsAlone(b, player, n)
  }

  /** `n` is free and has exactly one `player` neighbour. */
  predicate JoinsAlone(b: Board, player: nat, n: Pos)
    requires b.Valid()
  {
    b.Contains(n) && b.At(n).owner == 0 && IsSingleNeighbour(b, player, n)
  }

  /** How many entries of `s` lie in `t`. */
  function CountIn(s: seq<Pos>, t: set<Pos>): nat
  {
    if |s| == 0 then 0 else CountIn(s[..|s| - 1], t) + (if s[|s| - 1] in t then 1 else 0)
  }

  lemma {:induction false} CountInDistinct(s: seq<Pos>, t: set<Pos>)
    requires forall i, j :: 0 <= i < j < |s| ==> s[i] != s[j]
    ensures CountIn(s, t) == |t * (set x | x in s)|
  {
    if |s| > 0 {
      var s' := s[..|s| - 1];
      CountInDistinct(s', t);
      var last := s[|s| - 1];
      assert (set x | x in s) == (set x | x in s') + {last};
      assert last !in s';
      if last in t {
        assert t * (set x | x in s) == t * (set x | x in s') + {last};
      } else {
        assert t * (set x | x in s) == t * (set x | x in s');
      }
    }
  }

  /** Every neighbour owner of `p` indexes a table of `m` counts. */
  predicate OwnersBelow(b: Board, p: Pos, m: nat)
    requires b.Valid()
  {
    forall i :: 0 <= i < 4 ==> NeighbourOwners(b, p)[i] < m
  }

  /** One direction of `update_adjacent_fields` on the table `cs` of counts:
      the neighbour `n` joins `player`'s frontier, or `p` leaves the
      frontier of `n`'s owner, the latter only on that owner's first
      occurrence and while its count is positive. */
  function Adjust(b: Board, cs: seq<nat>, player: nat, nbrs: seq<nat>, i: nat, n: Pos): (r: seq<nat>)
    requires b.Valid() && player < |cs| && |nbrs| == 4
    requires b.Contains(n) ==> b.At(n).owner < |cs|
    ensures |r| == |cs|
  {
    if JoinsAlone(b, player, n) then
      cs[player := Wrap64(cs[player] + 1)]
    else if b.Contains(n) && cs[b.At(n).owner] > 0 && FirstPlayerOccurrence(nbrs, i) then
      cs[b.At(n).owner := cs[b.At(n).owner] - 1]
    else
      cs
  }

  /** The first `k` directions of `update_adjacent_fields`. */
  function Steps(b: Board, cs: seq<nat>, player: nat, p: Pos, k: nat): (r: seq<nat>)
    requires b.Valid() && player < |cs| && k <= 4 && OwnersBelow(b, p, |cs|)
    ensures |r| == |cs|
    decreases k
  {
    if k == 0 then cs
    else
      assert NeighbourOwners(b, p)[k - 1] < |cs|;
      Adjust(b, Steps(b, cs, player, p, k - 1), player, NeighbourOwners(b, p), k - 1, Dirs(p)[k - 1])
  }

  /** A player other than the mover loses `p` from its count at most once:
      exactly when it owns one of the first `k` neighbours and its count is
      positive. */
  lemma {:induction false} StepsOthers(b: Board, cs: seq<nat>, player: nat, p: Pos, k: nat, q: nat)
    requires b.Valid() && 1 <= player < |cs| && k <= 4 && OwnersBelow(b, p, |cs|)
    requires q < |cs| && q != player && (q >= 1 || cs[q] == 0)
    ensures var nbrs := NeighbourOwners(b, p);
      Steps(b, cs, player, p, k)[q] == if q in nbrs[..k] && cs[q] > 0 then cs[q] - 1 else cs[q]
    decreases k
  {
    var nbrs := NeighbourOwners(b, p);
    if k > 0 {
      StepsOthers(b, cs, player, p, k - 1, q);
      assert nbrs[..k] == nbrs[..k - 1] + [nbrs[k - 1]];
    }
  }

  /** One direction, seen from the mover. */
  lemma AdjustPlayer(b: Board, cs: seq<nat>, player: nat, nbrs: seq<nat>, i: nat, n: Pos)
    requires b.Valid() && 1 <= player < |cs| && |nbrs| == 4 && i < 4
    requires b.Contains(n) ==> b.At(n).owner < |cs|
    requires nbrs[i] == OwnerOr0(b, n)
    requires cs[player] + 1 < U64
    requires nbrs[i] == player && nbrs[i] !in nbrs[..i] ==> cs[player] >= 1
    ensures Adjust(b, cs, player, nbrs, i, n)[player] ==
      cs[player]
      + (if JoinsAlone(b, player, n) then 1 else 0)
      - (if nbrs[i] == player && nbrs[i] !in nbrs[..i] then 1 else 0)
  {
  }

  /** The mover's count grows by the neighbours that join its frontier and
      loses `p` once if `p` was in its frontier. */
  lemma {:induction false} StepsPlayer(b: Board, cs: seq<nat>, player: nat, p: Pos, k: nat)
    requires b.Valid() && 1 <= player < |cs| && k <= 4 && OwnersBelow(b, p, |cs|)
    requires player in NeighbourOwners(b, p) ==> cs[player] >= 1
    requires cs[player] + 4 < U64
    ensures var nbrs := NeighbourOwners(b, p);
      Steps(b, cs, player, p, k)[player] ==
        cs[player] + CountIn(Dirs(p)[..k], SinglesSet(b, player, p))
        - (if player in nbrs[..k] then 1 else 0)
    decreases k
  {
    var nbrs := NeighbourOwners(b, p);
    if k > 0 {
      var prev := Steps(b, cs, player, p, k - 1);
      StepsPlayer(b, cs, player, p, k - 1);
      assert nbrs[..k] == nbrs[..k - 1] + [nbrs[k - 1]];
      CountInStep(Dirs(p), k, SinglesSet(b, player, p));
      CountInBound(Dirs(p)[..k - 1], SinglesSet(b, player, p));
      var n := Dirs(p)[k - 1];
      assert n in SinglesSet(b, player, p) <==> JoinsAlone(b, player, n);
      assert nbrs[k - 1] < |cs|;
      AdjustPlayer(b, prev, player, nbrs, k - 1, n);
    }
  }

  lemma CountInStep(s: seq<Pos>, k: nat, t: set<Pos>)
    requires 1 <= k <= |s|
    ensures CountIn(s[..k], t) == CountIn(s[..k - 1], t) + (if s[k - 1] in t then 1 else 0)
  {
    assert s[..k][..k - 1] == s[..k - 1];
  }

  lemma {:induction false} CountInBound(s: seq<Pos>, t: set<Pos>)
    ensures CountIn(s, t) <= |s|
  {
    if |s| > 0 {
      CountInBound(s[..|s| - 1], t);
    }
  }

  lemma SinglesCount(b: Board, player: nat, p: Pos)
    requires b.Valid()
    ensures CountIn(Dirs(p), SinglesSet(b, player, p)) == |SinglesSet(b, player, p)|
  {
    DirsDistinct(p);
    CountInDistinct(Dirs(p), SinglesSet(b, player, p));
    assert SinglesSet(b, player, p) * (set x | x in Dirs(p)) == SinglesSet(b, player, p);
  }

  lemma OwnersBelowValid(g: Game, p: Pos)
    requires Valid(g)
    ensures OwnersBelow(g.board, p, |g.ledgers|)
  {
    forall i | 0 <= i < 4
      ensures NeighbourOwners(g.board, p)[i] < |g.ledgers|
    {
      if g.board.Contains(Dirs(p)[i]) {
        ValidCell(g, Dirs(p)[i]);
      }
    }
  }

  /** `update_adjacent_fields`, run once `p` is `player`'s: each free
      neighbour whose only `player` neighbour is `p` joins `player`'s count,
      and every other owner around `p` loses `p` from its count once. */
  function UpdateAdjacentFields(g: Game, player: nat, p: Pos): (g': Game)
    requires Valid(g) && 1 <= player <= g.players
    ensures Valid(g') && OnlyCaches(g, g')
    ensures forall q :: 0 <= q <= g.players && q != player && (q >= 1 || Cache(g, q) == 0) ==>
      Cache(g', q) ==
        if q in NeighbourOwners(g.board, p) && Cache(g, q) > 0 then Cache(g, q) - 1 else Cache(g, q)
    ensures (player in NeighbourOwners(g.board, p) ==> Cache(g, player) >= 1) && Cache(g, player) + 4 < U64 ==>
      Cache(g', player) ==
        Cache(g, player) + |SinglesSet(g.board, player, p)|
        - (if player in NeighbourOwners(g.board, p) then 1 else 0)
  {
    OwnersBelowValid(g, p);
    var cs := Steps(g.board, Caches(g), player, p, 4);
    UpdateOthers(g, player, p);
    UpdatePlayer(g, player, p);
    WithCaches(g, cs)
  }

  lemma UpdateOthers(g: Game, player: nat, p: Pos)
    requires Valid(g) && 1 <= player <= g.players
    ensures OwnersBelow(g.board, p, |g.ledgers|)
    ensures forall q :: 0 <= q <= g.players && q != player && (q >= 1 || Cache(g, q) == 0) ==>
      Steps(g.board, Caches(g), player, p, 4)[q] ==
        if q in NeighbourOwners(g.board, p) && Cache(g, q) > 0 then Cache(g, q) - 1 else Cache(g, q)
  {
    OwnersBelowValid(g, p);
    forall q | 0 <= q <= g.players && q != player && (q >= 1 || Cache(g, q) == 0)
      ensures Steps(g.board, Caches(g), player, p, 4)[q] ==
        if q in NeighbourOwners(g.board, p) && Cache(g, q) > 0 then Cache(g, q) - 1 else Cache(g, q)
    {
      StepsOthers(g.board, Caches(g), player, p, 4, q);
      assert NeighbourOwners(g.board, p)[..4] == NeighbourOwners(g.board, p);
    }
  }

  lemma UpdatePlayer(g: Game, player: nat, p: Pos)
    requires Valid(g) && 1 <= player <= g.players
    ensures OwnersBelow(g.board, p, |g.ledgers|)
    ensures (player in NeighbourOwners(g.board, p) ==> Cache(g, player) >= 1) && Cache(g, player) + 4 < U64 ==>
      Steps(g.board, Caches(g), player, p, 4)[player] ==
        Cache(g, player) + |SinglesSet(g.board, player, p)|
        - (if player in NeighbourOwners(g.board, p) then 1 else 0)
  {
    OwnersBelowValid(g, p);
    if (player in NeighbourOwners(g.board, p) ==> Cache(g, player) >= 1) && Cache(g, player) + 4 < U64 {
      StepsPlayer(g.board, Caches(g), player, p, 4);
      SinglesCount(g.board, player, p);
      assert NeighbourOwners(g.board, p)[..4] == NeighbourOwners(g.board, p);
      assert Dirs(p)[..4] == Dirs(p);
    }
  }

  /** The first `k` tests of one half of `golden_update_adjacent_fields`,
      applied to the count `c`: it goes up (or down) by one for each free
      neighbour of `p` whose only `player` neighbour is `p`. The C counter
      is 64-bit and wraps at each step; wrapping once after the four tests
      gives the same value, so the steps here are exact and the caller
      wraps the result. */
  function Bump(b: Board, player: nat, p: Pos, k: nat, up: bool, c: int): int
    requires b.Valid() && k <= 4
    decreases k
  {
    if k == 0 then c
    else
      var c1 := Bump(b, player, p, k - 1, up, c);
      if JoinsAlone(b, player, Dirs(p)[k - 1]) then c1 + Signed(up, 1) else c1
  }

  /** `c` with the sign of the step: up or down. */
  function Signed(up: bool, c: nat): int
  {
    if up then c as int else -(c as int)
  }

  lemma {:induction false} BumpCount(b: Board, player: nat, p: Pos, k: nat, up: bool, c: int)
    requires b.Valid() && k <= 4
    ensures Bump(b, player, p, k, up, c) == c + Signed(up, CountIn(Dirs(p)[..k], SinglesSet(b, player, p)))
    decreases k
  {
    var t := SinglesSet(b, player, p);
    if k == 0 {
      assert Dirs(p)[..0] == [];
    } else {
      BumpCount(b, player, p, k - 1, up, c);
      var d := Dirs(p)[k - 1];
      assert d in t <==> JoinsAlone(b, player, d);
      CountInStep(Dirs(p), k, t);
    }
  }

  /** All four tests of one half move the count by the number of free
      neighbours of `p` for which `p` is `player`'s only cell around them:
      the change `GoldenCaches` applies (wrapped to 64 bits). */
  lemma BumpAll(b: Board, player: nat, p: Pos, up: bool, c: int)
    requires b.Valid()
    ensures Bump(b, player, p, 4, up, c) == c + Signed(up, |SinglesSet(b, player, p)|)
  {
    BumpCount(b, player, p, 4, up, c);
    assert Dirs(p)[..4] == Dirs(p);
    SinglesCount(b, player, p);
  }

  /** The board with `p` given to `owner`. */
  function GiveCell(g: Game, p: Pos, owner: nat): (g': Game)
    requires Valid(g) && g.board.Contains(p) && CellFits(g, Cell(owner, g.board.At(p).area))
    ensures Valid(g') && g'.board == g.board.SetOwner(p, owner)
    ensures g' == g.(board := g'.board)
  {
    g.(board := g.board.SetOwner(p, owner))
  }

  /** The counts after `golden_update_adjacent_fields` on table `cs`: the
      old owner's count drops by the free neighbours of `p` for which `p`
      was its only cell around them (board before the capture), then the
      new owner's count rises by those for which `p` is now its only cell
      (board after), each in 64-bit arithmetic. */
  function GoldenCaches(b: Board, cs: seq<nat>, oldPlayer: nat, newPlayer: nat, p: Pos): (r: seq<nat>)
    requires b.Valid() && b.Contains(p) && oldPlayer < |cs| && newPlayer < |cs|
    ensures |r| == |cs|
    ensures forall q :: 0 <= q < |cs| && q != oldPlayer && q != newPlayer ==> r[q] == cs[q]
  {
    var cs1 := cs[oldPlayer := Wrap64(cs[oldPlayer] - |SinglesSet(b, oldPlayer, p)|)];
    cs1[newPlayer := Wrap64(cs1[newPlayer] + |SinglesSet(b.SetOwner(p, newPlayer), newPlayer, p)|)]
  }

  /** `golden_update_adjacent_fields`: the old owner loses the free
      neighbours of `p` for which `p` was its only cell around them, `p`
      passes to the new owner, and the new owner gains the free neighbours
      for which `p` is now its only cell. */
  function GoldenUpdateAdjacentFields(g: Game, oldPlayer: nat, newPlayer: nat, p: Pos): (g': Game)
    requires Valid(g) && g.board.Contains(p) && oldPlayer <= g.players
    requires CellFits(g, Cell(newPlayer, g.board.At(p).area))
    ensures Valid(g') && OnlyCaches(g.(board := g.board.SetOwner(p, newPlayer)), g')
    ensures Caches(g') == GoldenCaches(g.board, Caches(g), oldPlayer, newPlayer, p)
  {
    GiveCell(WithCaches(g, GoldenCaches(g.board, Caches(g), oldPlayer, newPlayer, p)), p, newPlayer)
  }
}
