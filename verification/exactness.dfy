/** Why `free_adjacent_fields` stays exact: how a player's frontier (the free
    cells next to one of its cells) changes when one cell changes hands, and
    that `update_adjacent_fields` and `golden_update_adjacent_fields` apply
    exactly that change to the counts. */
module Exactness {
  import opened Machine
  import opened Grid
  import opened State
  import opened Adjacency

  /** `b1` is `b0` with cell `p` given to `o`; the area ids may differ. */
  ghost predicate Claimed(b0: Board, b1: Board, p: Pos, o: nat)
    requires b0.Valid() && b1.Valid()
  {
    b0.Contains(p) && b1.width == b0.width && b1.height == b0.height &&
    b1.At(p).owner == o &&
    forall q :: b0.Contains(q) && q != p ==> b1.At(q).owner == b0.At(q).owner
  }

  lemma TouchesNonEmpty(b: Board, q: nat, n: Pos)
    requires b.Valid()
    ensures Touches(b, q, n) <==> PlayerNeighbours(b, q, n) != {}
  {
    if Touches(b, q, n) {
      if b.OwnedBy(Left(n), q) {
        assert Left(n) in PlayerNeighbours(b, q, n);
      } else if b.OwnedBy(Down(n), q) {
        assert Down(n) in PlayerNeighbours(b, q, n);
      } else if b.OwnedBy(Right(n), q) {
        assert Right(n) in PlayerNeighbours(b, q, n);
      } else {
        assert Up(n) in PlayerNeighbours(b, q, n);
      }
    }
  }

  /** Away from `p`, and for players other than the two owners of `p`,
      nothing changes around a cell. */
  lemma NeighboursKept(b0: Board, b1: Board, p: Pos, o: nat, q: nat, n: Pos)
    requires b0.Valid() && b1.Valid() && Claimed(b0, b1, p, o)
    requires p !in Dirs(n) || (q != o && q != b0.At(p).owner)
    ensures PlayerNeighbours(b1, q, n) == PlayerNeighbours(b0, q, n)
  {
  }

  /** Around a neighbour `n` of `p`, the cells of `q` gain `p` when `p`
      becomes `q`'s and lose it when it stops being `q`'s. */
  lemma NeighboursAtP(b0: Board, b1: Board, p: Pos, o: nat, q: nat, n: Pos)
    requires b0.Valid() && b1.Valid() && Claimed(b0, b1, p, o) && p in Dirs(n)
    ensures q == o && q != b0.At(p).owner ==>
      PlayerNeighbours(b1, q, n) == PlayerNeighbours(b0, q, n) + {p} &&
      p !in PlayerNeighbours(b0, q, n)
    ensures q != o && q == b0.At(p).owner ==>
      PlayerNeighbours(b1, q, n) == PlayerNeighbours(b0, q, n) - {p} &&
      p in PlayerNeighbours(b0, q, n)
  {
  }

  lemma NextTo(p: Pos, n: Pos)
    ensures p in Dirs(n) <==> n in Dirs(p)
  {
    DirsAdjacent(n, p);
    DirsAdjacent(p, n);
    AdjacentSymmetric(p, n);
  }

  /** `p` lies on the frontier of `q >= 1` exactly when `q` owns one of its
      neighbours. */
  lemma AtFrontier(b: Board, q: nat, p: Pos)
    requires b.Valid() && b.Contains(p) && b.At(p).owner == 0 && q >= 1
    ensures p in Frontier(b, q) <==> q in NeighbourOwners(b, p)
  {
    var nbrs := NeighbourOwners(b, p);
    if q in nbrs {
      var i :| 0 <= i < 4 && nbrs[i] == q;
      assert b.OwnedBy(Dirs(p)[i], q);
    }
  }

  /** A free cell that `player` claims leaves every other player's frontier
      and nothing else in it changes. */
  lemma MoveFrontierOther(b0: Board, b1: Board, p: Pos, player: nat, q: nat)
    requires b0.Valid() && b1.Valid() && Claimed(b0, b1, p, player)
    requires b0.At(p).owner == 0 && player >= 1 && q >= 1 && q != player
    ensures Frontier(b1, q) == Frontier(b0, q) - {p}
  {
    forall n | n in Frontier(b1, q) || n in Frontier(b0, q) - {p}
      ensures n in Frontier(b1, q) <==> n in Frontier(b0, q) - {p}
    {
      if n != p {
        NeighboursKept(b0, b1, p, player, q, n);
        TouchesNonEmpty(b0, q, n);
        TouchesNonEmpty(b1, q, n);
      }
    }
  }

  /** The claimer's frontier loses `p` and gains exactly the free
      neighbours of `p` whose only cell of the claimer is `p`. */
  lemma MoveFrontierPlayer(b0: Board, b1: Board, p: Pos, player: nat)
    requires b0.Valid() && b1.Valid() && Claimed(b0, b1, p, player)
    requires b0.At(p).owner == 0 && player >= 1
    ensures Frontier(b1, player) == (Frontier(b0, player) - {p}) + SinglesSet(b1, player, p)
    ensures Frontier(b0, player) !! SinglesSet(b1, player, p)
    ensures p !in SinglesSet(b1, player, p)
  {
    var s := SinglesSet(b1, player, p);
    forall n | n in Frontier(b1, player) || n in (Frontier(b0, player) - {p}) + s || n in Frontier(b0, player)
      ensures n in Frontier(b1, player) <==> n in (Frontier(b0, player) - {p}) + s
      ensures n in Frontier(b0, player) ==> n !in s
    {
      NextTo(p, n);
      TouchesNonEmpty(b0, player, n);
      TouchesNonEmpty(b1, player, n);
      if n != p && p in Dirs(n) {
        NeighboursAtP(b0, b1, p, player, player, n);
        PlayerNeighboursCard(b1, player, n);
        if PlayerNeighbours(b0, player, n) == {} {
          assert PlayerNeighbours(b1, player, n) == {p};
        } else {
          var m :| m in PlayerNeighbours(b0, player, n);
          assert {m, p} <= PlayerNeighbours(b1, player, n);
          SubsetCard2(m, p, PlayerNeighbours(b1, player, n));
        }
      } else if n != p {
        NeighboursKept(b0, b1, p, player, player, n);
      }
    }
  }

  lemma SubsetCard2(a: Pos, c: Pos, s: set<Pos>)
    requires a != c && {a, c} <= s
    ensures |s| >= 2
  {
    assert s == {a, c} + (s - {a, c});
  }

  /** A golden move leaves the frontier of every uninvolved player alone. */
  lemma GoldenFrontierOther(b0: Board, b1: Board, p: Pos, o: nat, q: nat)
    requires b0.Valid() && b1.Valid() && Claimed(b0, b1, p, o)
    requires b0.At(p).owner >= 1 && o >= 1 && q != o && q != b0.At(p).owner
    ensures Frontier(b1, q) == Frontier(b0, q)
  {
    forall n | n in Frontier(b1, q) || n in Frontier(b0, q)
      ensures n in Frontier(b1, q) <==> n in Frontier(b0, q)
    {
      NeighboursKept(b0, b1, p, o, q, n);
      TouchesNonEmpty(b0, q, n);
      TouchesNonEmpty(b1, q, n);
    }
  }

  /** The victim of a golden move loses exactly the free neighbours of `p`
      whose only cell of the victim was `p`. */
  lemma GoldenFrontierOld(b0: Board, b1: Board, p: Pos, o: nat)
    requires b0.Valid() && b1.Valid() && Claimed(b0, b1, p, o)
    requires b0.At(p).owner >= 1 && o >= 1 && o != b0.At(p).owner
    ensures var a := b0.At(p).owner;
      Frontier(b1, a) == Frontier(b0, a) - SinglesSet(b0, a, p) &&
      SinglesSet(b0, a, p) <= Frontier(b0, a)
  {
    var a := b0.At(p).owner;
    var s := SinglesSet(b0, a, p);
    forall n | n in Frontier(b1, a) || n in Frontier(b0, a) || n in s
      ensures n in Frontier(b1, a) <==> n in Frontier(b0, a) - s
      ensures n in s ==> n in Frontier(b0, a)
    {
      GoldenOldAt(b0, b1, p, o, n);
    }
  }

  lemma GoldenOldAt(b0: Board, b1: Board, p: Pos, o: nat, n: Pos)
    requires b0.Valid() && b1.Valid() && Claimed(b0, b1, p, o)
    requires b0.At(p).owner >= 1 && o >= 1 && o != b0.At(p).owner
    ensures var a := b0.At(p).owner;
      (n in Frontier(b1, a) <==> n in Frontier(b0, a) && n !in SinglesSet(b0, a, p)) &&
      (n in SinglesSet(b0, a, p) ==> n in Frontier(b0, a))
  {
    var a := b0.At(p).owner;
    NextTo(p, n);
    TouchesNonEmpty(b0, a, n);
    TouchesNonEmpty(b1, a, n);
    if p in Dirs(n) {
      NeighboursAtP(b0, b1, p, o, a, n);
      PlayerNeighboursCard(b0, a, n);
      if PlayerNeighbours(b1, a, n) == {} {
        assert PlayerNeighbours(b0, a, n) == {p};
      } else {
        var m :| m in PlayerNeighbours(b1, a, n);
        assert {m, p} <= PlayerNeighbours(b0, a, n);
        SubsetCard2(m, p, PlayerNeighbours(b0, a, n));
      }
    } else {
      NeighboursKept(b0, b1, p, o, a, n);
    }
  }

  /** The golden mover gains exactly the free neighbours of `p` whose only
      cell of the mover is now `p`. */
  lemma GoldenFrontierNew(b0: Board, b1: Board, p: Pos, o: nat)
    requires b0.Valid() && b1.Valid() && Claimed(b0, b1, p, o)
    requires b0.At(p).owner >= 1 && o >= 1 && o != b0.At(p).owner
    ensures Frontier(b1, o) == Frontier(b0, o) + SinglesSet(b1, o, p)
    ensures Frontier(b0, o) !! SinglesSet(b1, o, p)
  {
    var s := SinglesSet(b1, o, p);
    forall n | n in Frontier(b1, o) || n in Frontier(b0, o) || n in s
      ensures n in Frontier(b1, o) <==> n in Frontier(b0, o) + s
      ensures n in Frontier(b0, o) ==> n !in s
    {
      NextTo(p, n);
      TouchesNonEmpty(b0, o, n);
      TouchesNonEmpty(b1, o, n);
      if p in Dirs(n) {
        NeighboursAtP(b0, b1, p, o, o, n);
        PlayerNeighboursCard(b1, o, n);
        if PlayerNeighbours(b0, o, n) == {} {
          assert PlayerNeighbours(b1, o, n) == {p};
        } else {
          var m :| m in PlayerNeighbours(b0, o, n);
          assert {m, p} <= PlayerNeighbours(b1, o, n);
          SubsetCard2(m, p, PlayerNeighbours(b1, o, n));
        }
      } else {
        NeighboursKept(b0, b1, p, o, o, n);
      }
    }
  }

  lemma FrontierBound(b: Board, q: nat)
    requires b.Valid()
    ensures |Frontier(b, q)| <= b.width * b.height
  {
    AllPosCard(b);
    SubsetCard(Frontier(b, q), b.AllPos());
  }

  lemma RemoveSize(a: set<Pos>, p: Pos)
    ensures |a - {p}| == if p in a then |a| - 1 else |a|
  {
    if p in a {
      assert a == (a - {p}) + {p};
    } else {
      assert a - {p} == a;
    }
  }

  lemma DiffSize(a: set<Pos>, c: set<Pos>)
    requires c <= a
    ensures |a - c| == |a| - |c|
  {
    assert a == (a - c) + c;
  }

  /** Frontiers depend on owners alone. */
  lemma FrontierSameOwners(b: Board, b': Board, q: nat)
    requires b.Valid() && b'.Valid() && SameOwners(b, b')
    ensures Frontier(b, q) == Frontier(b', q)
  {
    forall n | n in Frontier(b, q) || n in Frontier(b', q)
      ensures n in Frontier(b, q) <==> n in Frontier(b', q)
    {
    }
  }

  lemma NeighbourOwnersClaimed(b0: Board, b1: Board, p: Pos, o: nat)
    requires b0.Valid() && b1.Valid() && Claimed(b0, b1, p, o)
    ensures NeighbourOwners(b1, p) == NeighbourOwners(b0, p)
  {
  }

  /** Relabelling areas, or any change that keeps owners and counts, keeps
      the counts exact. */
  lemma CacheExactSameOwners(g: Game, g': Game)
    requires Valid(g) && Valid(g') && SameOwners(g.board, g'.board)
    requires g'.players == g.players && Caches(g') == Caches(g)
    requires CacheExact(g)
    ensures CacheExact(g')
  {
    forall q | 1 <= q <= g.players
      ensures Cache(g', q) == |Frontier(g'.board, q)|
    {
      FrontierSameOwners(g.board, g'.board, q);
      assert Cache(g', q) == Caches(g')[q];
    }
    assert Cache(g', 0) == Caches(g')[0];
  }

  /** `update_adjacent_fields` after a free cell is claimed keeps every
      count equal to the size of its player's frontier. */
  lemma MoveKeepsCacheExact(g0: Game, g1: Game, player: nat, p: Pos)
    requires Valid(g0) && Valid(g1) && CacheExact(g0)
    requires Claimed(g0.board, g1.board, p, player) && g0.board.At(p).owner == 0
    requires 1 <= player <= g0.players && g1.players == g0.players && Caches(g1) == Caches(g0)
    ensures CacheExact(UpdateAdjacentFields(g1, player, p))
  {
    var g2 := UpdateAdjacentFields(g1, player, p);
    var b0, b1 := g0.board, g1.board;
    NeighbourOwnersClaimed(b0, b1, p, player);
    assert Cache(g1, 0) == Caches(g1)[0] == Caches(g0)[0] == 0;
    forall q | 1 <= q <= g0.players
      ensures Cache(g2, q) == |Frontier(b1, q)|
    {
      assert Cache(g1, q) == Caches(g1)[q] == Caches(g0)[q] == |Frontier(b0, q)|;
      AtFrontier(b0, q, p);
      if q != player {
        MoveFrontierOther(b0, b1, p, player, q);
        RemoveSize(Frontier(b0, q), p);
      } else {
        MoveFrontierPlayer(b0, b1, p, player);
        RemoveSize(Frontier(b0, q), p);
        FrontierBound(b0, q);
        ProductFits(b0.width, b0.height);
      }
    }
  }

  /** `golden_update_adjacent_fields` keeps every count equal to the size
      of its player's frontier. */
  lemma GoldenKeepsCacheExact(g: Game, o: nat, p: Pos)
    requires Valid(g) && CacheExact(g) && g.board.Contains(p)
    requires g.board.At(p).owner >= 1 && 1 <= o <= g.players && o != g.board.At(p).owner
    ensures g.board.At(p).owner <= g.players
    ensures CacheExact(GoldenUpdateAdjacentFields(g, g.board.At(p).owner, o, p))
  {
    ValidCell(g, p);
    var a := g.board.At(p).owner;
    var g' := GoldenUpdateAdjacentFields(g, a, o, p);
    var cs := GoldenCaches(g.board, Caches(g), a, o, p);
    assert Cache(g', 0) == cs[0];
    assert Caches(g)[a] == |Frontier(g.board, a)| && Caches(g)[o] == |Frontier(g.board, o)|;
    forall q | 1 <= q <= g.players
      ensures Cache(g', q) == |Frontier(g'.board, q)|
    {
      assert Cache(g', q) == cs[q];
      GoldenTableExact(g.board, Caches(g), a, o, p, q);
    }
  }

  /** One count after `golden_update_adjacent_fields`, on the table. */
  lemma GoldenTableExact(b0: Board, cs: seq<nat>, a: nat, o: nat, p: Pos, q: nat)
    requires b0.Valid() && b0.Contains(p) && b0.width < U32 && b0.height < U32
    requires a == b0.At(p).owner >= 1 && o >= 1 && o != a && a < |cs| && o < |cs| && 1 <= q < |cs|
    requires cs[q] == |Frontier(b0, q)| && cs[a] == |Frontier(b0, a)| && cs[o] == |Frontier(b0, o)|
    ensures GoldenCaches(b0, cs, a, o, p)[q] == |Frontier(b0.SetOwner(p, o), q)|
  {
    if q == a {
      GoldenTableOld(b0, cs, a, o, p);
    } else if q == o {
      GoldenTableNew(b0, cs, a, o, p);
    } else {
      GoldenTableOther(b0, cs, a, o, p, q);
    }
  }

  lemma GoldenTableOld(b0: Board, cs: seq<nat>, a: nat, o: nat, p: Pos)
    requires b0.Valid() && b0.Contains(p) && b0.width < U32 && b0.height < U32
    requires a == b0.At(p).owner >= 1 && o >= 1 && o != a && a < |cs| && o < |cs|
    requires cs[a] == |Frontier(b0, a)|
    ensures GoldenCaches(b0, cs, a, o, p)[a] == |Frontier(b0.SetOwner(p, o), a)|
  {
    var b1 := b0.SetOwner(p, o);
    assert Claimed(b0, b1, p, o);
    FrontierBound(b0, a);
    ProductFits(b0.width, b0.height);
    GoldenFrontierOld(b0, b1, p, o);
    DiffSize(Frontier(b0, a), SinglesSet(b0, a, p));
    SubsetCard(SinglesSet(b0, a, p), Frontier(b0, a));
  }

  lemma GoldenTableNew(b0: Board, cs: seq<nat>, a: nat, o: nat, p: Pos)
    requires b0.Valid() && b0.Contains(p) && b0.width < U32 && b0.height < U32
    requires a == b0.At(p).owner >= 1 && o >= 1 && o != a && a < |cs| && o < |cs|
    requires cs[o] == |Frontier(b0, o)|
    ensures GoldenCaches(b0, cs, a, o, p)[o] == |Frontier(b0.SetOwner(p, o), o)|
  {
    var b1 := b0.SetOwner(p, o);
    assert Claimed(b0, b1, p, o);
    FrontierBound(b0, o);
    FrontierBound(b1, o);
    ProductFits(b0.width, b0.height);
    GoldenFrontierNew(b0, b1, p, o);
  }

  lemma GoldenTableOther(b0: Board, cs: seq<nat>, a: nat, o: nat, p: Pos, q: nat)
    requires b0.Valid() && b0.Contains(p)
    requires a == b0.At(p).owner >= 1 && o >= 1 && o != a && a < |cs| && o < |cs|
    requires 1 <= q < |cs| && q != a && q != o && cs[q] == |Frontier(b0, q)|
    ensures GoldenCaches(b0, cs, a, o, p)[q] == |Frontier(b0.SetOwner(p, o), q)|
  {
    var b1 := b0.SetOwner(p, o);
    assert Claimed(b0, b1, p, o);
    GoldenFrontierOther(b0, b1, p, o, q);
  }
}
