/** Merging of a player's areas around a newly claimed cell: `reset_area_info`,
    `update_one_direction` and `gamma_update_area`. Each works on one
    player's ledger and the board; the caller stores the ledger back. */
module Areas {
  import opened Machine
  import opened Grid
  import opened Paths
  import opened Bfs
  import opened State

  /** A neighbour `n` owned by `player` carries an id that indexes both tables. */
  predicate IdFits(b: Board, l: Ledger, player: nat, n: Pos)
    requires b.Valid()
  {
    b.OwnedBy(n, player) ==> b.At(n).area < |l.areaNumber| && b.At(n).area < |l.areaSize|
  }

  predicate NeighbourIdsFit(b: Board, l: Ledger, player: nat, p: Pos)
    requires b.Valid()
  {
    IdFits(b, l, player, Left(p)) && IdFits(b, l, player, Right(p)) &&
    IdFits(b, l, player, Down(p)) && IdFits(b, l, player, Up(p))
  }

  /** `n` is owned by `player` and carries id `i`. */
  predicate HasId(b: Board, player: nat, n: Pos, i: nat)
    requires b.Valid()
  {
    b.OwnedBy(n, player) && b.At(n).area == i
  }

  /** Slot `i` is released by `reset_area_info`: the left, right or lower
      neighbour of `p` is `player`'s with id `i`, and the slot's canonical
      number is not `newNumber`. The upper neighbour is never looked at. */
  predicate Released(b: Board, l: Ledger, player: nat, p: Pos, newNumber: nat, i: nat)
    requires b.Valid() && i < |l.areaNumber|
  {
    l.areaNumber[i] != newNumber &&
    (HasId(b, player, Left(p), i) || HasId(b, player, Right(p), i) || HasId(b, player, Down(p), i))
  }

  /** One test of `reset_area_info`. */
  function ReleaseIf(l: Ledger, b: Board, player: nat, n: Pos, newNumber: nat): (l': Ledger)
    requires b.Valid() && IdFits(b, l, player, n)
    ensures |l'.areaNumber| == |l.areaNumber| && |l'.areaSize| == |l.areaSize|
  {
    if b.OwnedBy(n, player) && l.areaNumber[b.At(n).area] != newNumber then
      var i := b.At(n).area;
      l.(areaSize := l.areaSize[i := 0], areaNumber := l.areaNumber[i := 0])
    else
      l
  }

  /** The id `n` contributes to the tests: its own when it is `player`'s. */
  function IdOf(b: Board, player: nat, n: Pos): set<nat>
    requires b.Valid()
  {
    if b.OwnedBy(n, player) then {b.At(n).area} else {}
  }

  /** `l` is `l0` with the slots of `hits` whose number is not `newNumber` zeroed. */
  ghost predicate Cleared(l0: Ledger, l: Ledger, newNumber: nat, hits: set<nat>)
  {
    l == l0.(areaNumber := l.areaNumber, areaSize := l.areaSize) &&
    |l.areaNumber| == |l0.areaNumber| && |l.areaSize| == |l0.areaSize| &&
    forall i :: 0 <= i < |l0.areaNumber| && i < |l0.areaSize| ==>
      if i in hits && l0.areaNumber[i] != newNumber
      then l.areaNumber[i] == 0 && l.areaSize[i] == 0
      else l.areaNumber[i] == l0.areaNumber[i] && l.areaSize[i] == l0.areaSize[i]
  }

  lemma ReleaseStep(l0: Ledger, l: Ledger, b: Board, player: nat, n: Pos, newNumber: nat, hits: set<nat>)
    requires b.Valid() && IdFits(b, l, player, n) && Cleared(l0, l, newNumber, hits)
    ensures Cleared(l0, ReleaseIf(l, b, player, n, newNumber), newNumber, hits + IdOf(b, player, n))
  {
  }

  /** `reset_area_info`: zeroes the number and size slots of the neighbours'
      areas whose canonical number is not `newNumber`. It tests left, right,
      down and right again, in that order. */
  function ResetAreaInfo(l: Ledger, b: Board, player: nat, p: Pos, newNumber: nat): (l': Ledger)
    requires b.Valid() && NeighbourIdsFit(b, l, player, p)
    ensures l' == l.(areaNumber := l'.areaNumber, areaSize := l'.areaSize)
    ensures |l'.areaNumber| == |l.areaNumber| && |l'.areaSize| == |l.areaSize|
    ensures forall i :: 0 <= i < |l.areaNumber| && i < |l.areaSize| ==>
      if Released(b, l, player, p, newNumber, i)
      then l'.areaNumber[i] == 0 && l'.areaSize[i] == 0
      else l'.areaNumber[i] == l.areaNumber[i] && l'.areaSize[i] == l.areaSize[i]
  {
    var l1 := ReleaseIf(l, b, player, Left(p), newNumber);
    ReleaseStep(l, l, b, player, Left(p), newNumber, {});
    var l2 := ReleaseIf(l1, b, player, Right(p), newNumber);
    ReleaseStep(l, l1, b, player, Right(p), newNumber, IdOf(b, player, Left(p)));
    var l3 := ReleaseIf(l2, b, player, Down(p), newNumber);
    var hits2 := IdOf(b, player, Left(p)) + IdOf(b, player, Right(p));
    ReleaseStep(l, l2, b, player, Down(p), newNumber, hits2);
    var l4 := ReleaseIf(l3, b, player, Right(p), newNumber);
    var hits3 := hits2 + IdOf(b, player, Down(p));
    ReleaseStep(l, l3, b, player, Right(p), newNumber, hits3);
    assert hits3 + IdOf(b, player, Right(p)) == hits3;
    l4
  }

  /** The component of `n` among `player`'s cells, or nothing when `n` is not
      `player`'s. */
  ghost function Reached(b: Board, player: nat, n: Pos): set<Pos>
    requires b.Valid()
  {
    if b.OwnedBy(n, player) then Component(b, player, n) else {}
  }

  /** Every cell of `player` connected to a neighbour of `p`. */
  ghost function Merged(b: Board, player: nat, p: Pos): set<Pos>
    requires b.Valid()
  {
    Reached(b, player, Left(p)) + Reached(b, player, Right(p)) +
    Reached(b, player, Down(p)) + Reached(b, player, Up(p))
  }

  lemma ReachedOwned(b: Board, player: nat, n: Pos, q: Pos)
    requires b.Valid() && q in Reached(b, player, n)
    ensures b.OwnedBy(q, player)
  {
    ReachEnd(b.CellsOf(player), n, q);
  }

  lemma ReachedSameOwners(b: Board, b': Board, player: nat, n: Pos)
    requires b.Valid() && b'.Valid() && SameOwners(b, b')
    ensures Reached(b, player, n) == Reached(b', player, n)
  {
    SameOwnersCells(b, b', player);
  }

  /** `b'` is `b` with the cells of `s` given id `id`. */
  ghost predicate RelabelledFrom(b: Board, b': Board, s: set<Pos>, id: nat)
    requires b.Valid() && b'.Valid()
  {
    SameOwners(b, b') &&
    forall q :: b.Contains(q) ==> b'.At(q) == if q in s then Cell(b.At(q).owner, id) else b.At(q)
  }

  lemma RelabelChain(b: Board, b1: Board, b2: Board, s1: set<Pos>, s2: set<Pos>, id: nat)
    requires b.Valid() && b1.Valid() && b2.Valid()
    requires RelabelledFrom(b, b1, s1, id) && RelabelledFrom(b1, b2, s2, id)
    ensures RelabelledFrom(b, b2, s1 + s2, id)
  {
  }

  /** One `set_new_area_number` call of `update_one_direction`, started at
      `n`; `b0` is the board before the first call. */
  method Spread(b0: Board, b: Board, player: nat, n: Pos, id: nat) returns (b': Board)
    requires b0.Valid() && b.Valid() && SameOwners(b0, b)
    ensures b'.Valid() && RelabelledFrom(b, b', Reached(b0, player, n), id)
  {
    var marks;
    b', marks := SetNewAreaNumber(b, n, player, id);
    ReachedSameOwners(b0, b, player, n);
    forall q | q in Reached(b, player, n)
      ensures b.At(q).owner == player
    {
      ReachedOwned(b, player, n, q);
    }
  }

  /** The four `set_new_area_number` calls of `update_one_direction`, from
      left, right, below and above `p`, each passing the id `d` holds at the
      time of the call. */
  method SpreadAround(b: Board, player: nat, p: Pos, d: Pos) returns (b': Board)
    requires b.Valid() && b.Contains(d)
    ensures b'.Valid() && RelabelledFrom(b, b', Merged(b, player, p), b.At(d).area)
  {
    var s := b.At(d).area;
    var b1 := Spread(b, b, player, Left(p), b.At(d).area);
    var b2 := Spread(b, b1, player, Right(p), b1.At(d).area);
    RelabelChain(b, b1, b2, Reached(b, player, Left(p)), Reached(b, player, Right(p)), s);
    var b3 := Spread(b, b2, player, Down(p), b2.At(d).area);
    RelabelChain(b, b2, b3, Reached(b, player, Left(p)) + Reached(b, player, Right(p)),
                 Reached(b, player, Down(p)), s);
    b' := Spread(b, b3, player, Up(p), b3.At(d).area);
    RelabelChain(b, b3, b', Reached(b, player, Left(p)) + Reached(b, player, Right(p)) + Reached(b, player, Down(p)),
                 Reached(b, player, Up(p)), s);
  }

  lemma MergedOwned(b: Board, player: nat, p: Pos)
    requires b.Valid()
    ensures forall q :: q in Merged(b, player, p) ==> b.OwnedBy(q, player)
  {
    forall q | q in Merged(b, player, p)
      ensures b.OwnedBy(q, player)
    {
      if q in Reached(b, player, Left(p)) {
        ReachedOwned(b, player, Left(p), q);
      } else if q in Reached(b, player, Right(p)) {
        ReachedOwned(b, player, Right(p), q);
      } else if q in Reached(b, player, Down(p)) {
        ReachedOwned(b, player, Down(p), q);
      } else {
        ReachedOwned(b, player, Up(p), q);
      }
    }
  }

  /** `update_one_direction`: the area of neighbour `d` survives. Its slot
      keeps its canonical number and takes `newSize`, the other neighbours'
      slots are released as by `reset_area_info`, every cell connected to a
      neighbour of `p` and `p` itself take the surviving id. */
  method UpdateOneDirection(b: Board, l: Ledger, player: nat, p: Pos, newSize: nat, d: Pos)
    returns (b': Board, l': Ledger)
    requires b.Valid() && b.Contains(p) && NeighbourIdsFit(b, l, player, p)
    requires d in {Up(p), Left(p), Right(p), Down(p)} && b.Contains(d)
    requires b.At(d).area < |l.areaNumber| && b.At(d).area < |l.areaSize|
    ensures b'.Valid() && SameOwners(b, b')
    ensures forall q :: b.Contains(q) ==>
      b'.At(q) == if q == p then Cell(b.At(p).owner, b.At(d).area)
                  else if q in Merged(b, player, p) then Cell(player, b.At(d).area)
                  else b.At(q)
    ensures l' == l.(areaNumber := l'.areaNumber, areaSize := l'.areaSize)
    ensures |l'.areaNumber| == |l.areaNumber| && |l'.areaSize| == |l.areaSize|
    ensures l'.areaNumber[b.At(d).area] == l.areaNumber[b.At(d).area]
    ensures l'.areaSize[b.At(d).area] == newSize
    ensures forall i :: 0 <= i < |l.areaNumber| && i < |l.areaSize| && i != b.At(d).area ==>
      if Released(b, l, player, p, l.areaNumber[b.At(d).area], i)
      then l'.areaNumber[i] == 0 && l'.areaSize[i] == 0
      else l'.areaNumber[i] == l.areaNumber[i] && l'.areaSize[i] == l.areaSize[i]
  {
    var s := b.At(d).area;
    var number := l.areaNumber[s];
    var l1 := ResetAreaInfo(l, b, player, p, number);
    l' := l1.(areaNumber := l1.areaNumber[s := number]);
    var b4 := SpreadAround(b, player, p, d);
    l' := l'.(areaSize := l'.areaSize[b4.At(d).area := newSize]);
    b' := b4.SetArea(p, b4.At(d).area);
    MergedOwned(b, player, p);
  }

  /** The size `gamma_update_area` reads for neighbour `n`: the recorded size
      truncated to 32 bits when `n` is `player`'s, 0 otherwise. */
  function SizeOf(b: Board, l: Ledger, player: nat, n: Pos): (r: nat)
    requires b.Valid() && IdFits(b, l, player, n)
    ensures r < U32
    ensures r > 0 ==> b.OwnedBy(n, player)
  {
    if b.OwnedBy(n, player) then Wrap32(l.areaSize[b.At(n).area]) else 0
  }

  /** Some neighbour of `p` is `player`'s with a positive recorded size. */
  predicate HasSizedNeighbour(b: Board, l: Ledger, player: nat, p: Pos)
    requires b.Valid() && NeighbourIdsFit(b, l, player, p)
  {
    SizeOf(b, l, player, Up(p)) > 0 || SizeOf(b, l, player, Left(p)) > 0 ||
    SizeOf(b, l, player, Right(p)) > 0 || SizeOf(b, l, player, Down(p)) > 0
  }

  function Max(a: nat, b: nat): nat
  {
    if a >= b then a else b
  }

  /** What `gamma_update_area` needs to stay inside the board and the
      tables: when no neighbour has a positive size it takes the upper
      neighbour's area, whatever that cell holds. */
  predicate Mergeable(b: Board, l: Ledger, player: nat, p: Pos)
    requires b.Valid()
  {
    NeighbourIdsFit(b, l, player, p) &&
    (HasSizedNeighbour(b, l, player, p) ||
      (b.Contains(Up(p)) && b.At(Up(p)).area < |l.areaNumber| && b.At(Up(p)).area < |l.areaSize|))
  }

  /** The neighbour whose area survives the merge: the first of up, left,
      right, down whose size equals the largest. */
  function Survivor(b: Board, l: Ledger, player: nat, p: Pos): (d: Pos)
    requires b.Valid() && Mergeable(b, l, player, p)
    ensures d in {Up(p), Left(p), Right(p), Down(p)} && b.Contains(d)
    ensures b.At(d).area < |l.areaNumber| && b.At(d).area < |l.areaSize|
    ensures HasSizedNeighbour(b, l, player, p) ==> b.OwnedBy(d, player)
    ensures SizeOf(b, l, player, Up(p)) <= SizeOf(b, l, player, d)
    ensures SizeOf(b, l, player, Left(p)) <= SizeOf(b, l, player, d)
    ensures SizeOf(b, l, player, Right(p)) <= SizeOf(b, l, player, d)
    ensures SizeOf(b, l, player, Down(p)) <= SizeOf(b, l, player, d)
    ensures d == Up(p) ||
      (SizeOf(b, l, player, Up(p)) < SizeOf(b, l, player, d) &&
        (d == Left(p) ||
          (SizeOf(b, l, player, Left(p)) < SizeOf(b, l, player, d) &&
            (d == Right(p) ||
              (SizeOf(b, l, player, Right(p)) < SizeOf(b, l, player, d) && d == Down(p))))))
  {
    var up := SizeOf(b, l, player, Up(p));
    var left := SizeOf(b, l, player, Left(p));
    var right := SizeOf(b, l, player, Right(p));
    var down := SizeOf(b, l, player, Down(p));
    var m := Max(Max(left, up), Max(right, down));
    if m == up then Up(p)
    else if m == left then Left(p)
    else if m == right then Right(p)
    else Down(p)
  }

  /** The id of the surviving area. */
  function SurvivingId(b: Board, l: Ledger, player: nat, p: Pos): nat
    requires b.Valid() && Mergeable(b, l, player, p)
  {
    b.At(Survivor(b, l, player, p)).area
  }

  /** The board after a merge around `p`: `p` and every cell of `player`
      reachable from its neighbours carry the surviving id; nothing else
      changes. */
  ghost predicate Relabelled(b: Board, l: Ledger, player: nat, p: Pos, b': Board)
    requires b.Valid() && Mergeable(b, l, player, p)
  {
    var s := SurvivingId(b, l, player, p);
    && b'.Valid() && SameOwners(b, b')
    && forall q :: b.Contains(q) ==>
         b'.At(q) == if q == p then Cell(b.At(p).owner, s)
                     else if q in Merged(b, player, p) then Cell(player, s)
                     else b.At(q)
  }

  /** The ledger after a merge around `p`: the area count moves by the
      number of distinct neighbouring ids less one (up when `add`), the
      survivor's slot records the summed size, the other neighbours' slots
      are released, and nothing else changes. */
  ghost predicate Recounted(b: Board, l: Ledger, player: nat, p: Pos, add: bool, l': Ledger)
    requires b.Valid() && Mergeable(b, l, player, p)
  {
    var s := SurvivingId(b, l, player, p);
    && l' == l.(currentAreas := l'.currentAreas, areaNumber := l'.areaNumber, areaSize := l'.areaSize)
    && l'.currentAreas == Wrap32(
         if add then l.currentAreas + (CountAreas(b, player, p) - 1)
         else l.currentAreas - (CountAreas(b, player, p) - 1))
    && ReleasedSlots(b, l, player, p, l')
    && l'.areaNumber[s] == l.areaNumber[s]
    && l'.areaSize[s] == MergedSize(b, l, player, p)
  }

  /** The size a merge records for the surviving area: one more than the
      neighbours' sizes, truncated to 32 bits. */
  function MergedSize(b: Board, l: Ledger, player: nat, p: Pos): (r: nat)
    requires b.Valid() && Mergeable(b, l, player, p)
    ensures r < U32
  {
    Wrap32(SizeOf(b, l, player, Left(p)) + SizeOf(b, l, player, Up(p)) +
           SizeOf(b, l, player, Right(p)) + SizeOf(b, l, player, Down(p)) + 1)
  }

  /** The tables after a merge, away from the survivor's slot: the slots
      `reset_area_info` releases are zeroed and the others kept. */
  ghost predicate ReleasedSlots(b: Board, l: Ledger, player: nat, p: Pos, l': Ledger)
    requires b.Valid() && Mergeable(b, l, player, p)
  {
    var s := SurvivingId(b, l, player, p);
    && |l'.areaNumber| == |l.areaNumber| && |l'.areaSize| == |l.areaSize|
    && forall i :: 0 <= i < |l.areaNumber| && i < |l.areaSize| && i != s ==>
         if Released(b, l, player, p, l.areaNumber[s], i)
         then l'.areaNumber[i] == 0 && l'.areaSize[i] == 0
         else l'.areaNumber[i] == l.areaNumber[i] && l'.areaSize[i] == l.areaSize[i]
  }

  /** `ReleasedSlots` reads only the tables. */
  lemma ReleasedSlotsTables(b: Board, l: Ledger, player: nat, p: Pos, l1: Ledger, l2: Ledger)
    requires b.Valid() && Mergeable(b, l, player, p) && ReleasedSlots(b, l, player, p, l1)
    requires l2.areaNumber == l1.areaNumber && l2.areaSize == l1.areaSize
    ensures ReleasedSlots(b, l, player, p, l2)
  {
  }

  /** `gamma_update_area`: merges the areas of `player` around `p` into the
      largest one. The merged area's size is one more than the sum of the
      neighbours' sizes, each counted once per neighbour; the area count
      moves by the number of distinct neighbouring areas less one, down when
      a cell joins areas and up (`add`) when one is taken away. */
  method GammaUpdateArea(b: Board, l: Ledger, player: nat, p: Pos, add: bool)
    returns (b': Board, l': Ledger)
    requires b.Valid() && b.Contains(p) && Mergeable(b, l, player, p)
    ensures Relabelled(b, l, player, p, b') && Recounted(b, l, player, p, add, l')
  {
    var newSize := MergedSize(b, l, player, p);
    var areas := CountAreas(b, player, p);
    var current := Wrap32(if add then l.currentAreas + (areas as int - 1) else l.currentAreas - (areas as int - 1));
    // The area count is a field of its own; updating it after the merge
    // instead of before changes nothing.
    var d := Survivor(b, l, player, p);
    var l1;
    b', l1 := UpdateOneDirection(b, l, player, p, newSize, d);
    l' := l1.(currentAreas := current);
    MergedBySurvivor(b, l, player, p, add, b', l1, l');
  }

  /** What `update_one_direction` leaves when the survivor's area is kept
      is the merge `gamma_update_area` promises. */
  lemma MergedBySurvivor(b: Board, l: Ledger, player: nat, p: Pos, add: bool, b': Board, l1: Ledger, l': Ledger)
    requires b.Valid() && b.Contains(p) && Mergeable(b, l, player, p)
    requires b'.Valid() && SameOwners(b, b')
    requires forall q :: b.Contains(q) ==>
      b'.At(q) == if q == p then Cell(b.At(p).owner, SurvivingId(b, l, player, p))
                  else if q in Merged(b, player, p) then Cell(player, SurvivingId(b, l, player, p))
                  else b.At(q)
    requires l1 == l.(areaNumber := l1.areaNumber, areaSize := l1.areaSize)
    requires ReleasedSlots(b, l, player, p, l1)
    requires l1.areaNumber[SurvivingId(b, l, player, p)] == l.areaNumber[SurvivingId(b, l, player, p)]
    requires l1.areaSize[SurvivingId(b, l, player, p)] == MergedSize(b, l, player, p)
    requires l' == l1.(currentAreas := l'.currentAreas)
    requires l'.currentAreas == Wrap32(
      if add then l.currentAreas + (CountAreas(b, player, p) - 1)
      else l.currentAreas - (CountAreas(b, player, p) - 1))
    ensures Relabelled(b, l, player, p, b') && Recounted(b, l, player, p, add, l')
  {
    ReleasedSlotsTables(b, l, player, p, l1, l');
  }
}
