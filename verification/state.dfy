/** The game record and the per-player ledger of the C `gamma_t` and
    `player_t` structures, as immutable values. */
module State {
  import opened Machine
  import opened Grid

  /** One player's bookkeeping. `areaNumber[i]` is the canonical id recorded
      for slot `i` (0: free slot) and `areaSize[i]` the size recorded for it. */
  datatype Ledger = Ledger(
    freeAdjacent: nat,
    usedGolden: bool,
    currentAreas: nat,
    areaNumber: seq<nat>,
    areaSize: seq<nat>,
    busy: nat)

  /** `ledgers[p]` belongs to player `p`; slot 0 exists but no player 0 plays. */
  datatype Game = Game(
    maxAreas: nat,
    players: nat,
    freeFields: nat,
    ledgers: seq<Ledger>,
    board: Board)

  /** Length of the id tables: `areas + 9`, computed in 32 bits. */
  function TableSize(maxAreas: nat): nat
  {
    Wrap32(maxAreas + 9)
  }

  /** A new player's ledger: no areas, no busy or neighbouring free fields,
      the golden move unused, and both id tables zeroed. */
  function EmptyLedger(maxAreas: nat): (l: Ledger)
    ensures |l.areaNumber| == |l.areaSize| == TableSize(maxAreas)
    ensures l.currentAreas == 0 && l.busy == 0 && l.freeAdjacent == 0 && !l.usedGolden
    ensures forall i :: 0 <= i < |l.areaNumber| ==> l.areaNumber[i] == 0
    ensures forall i :: 0 <= i < |l.areaSize| ==> l.areaSize[i] == 0
  {
    Ledger(0, false, 0, seq(TableSize(maxAreas), _ => 0), seq(TableSize(maxAreas), _ => 0), 0)
  }

  predicate LedgerShaped(l: Ledger, maxAreas: nat)
  {
    |l.areaNumber| == TableSize(maxAreas) && |l.areaSize| == TableSize(maxAreas)
  }

  /** What every operation relies on and keeps: the sizes fixed at
      construction, a ledger per player id 0..players, owners that are player
      ids and, on claimed cells, area ids that index the owner's tables. */
  predicate Valid(g: Game)
  {
    && g.board.Valid()
    && 1 <= g.board.width < U32 && 1 <= g.board.height < U32
    && 1 <= g.players && g.players + 1 < U32
    && 1 <= g.maxAreas < U32
    && |g.ledgers| == g.players + 1
    && (forall i :: 0 <= i < |g.ledgers| ==> LedgerShaped(g.ledgers[i], g.maxAreas))
    && (forall p :: p in g.board.AllPos() ==> CellFits(g, g.board.At(p)))
  }

  predicate CellFits(g: Game, c: Cell)
  {
    c.owner <= g.players && (c.owner >= 1 ==> c.area < TableSize(g.maxAreas))
  }

  lemma ValidCell(g: Game, p: Pos)
    requires Valid(g) && g.board.Contains(p)
    ensures g.board.At(p).owner <= g.players
    ensures g.board.At(p).owner >= 1 ==> g.board.At(p).area < TableSize(g.maxAreas)
  {
  }

  function Width(g: Game): nat { g.board.width }
  function Height(g: Game): nat { g.board.height }

  /** Replaces player `p`'s ledger. */
  function SetLedger(g: Game, p: nat, l: Ledger): (g': Game)
    requires p < |g.ledgers|
    ensures g'.ledgers == g.ledgers[p := l]
    ensures g'.board == g.board && g'.freeFields == g.freeFields
    ensures g'.maxAreas == g.maxAreas && g'.players == g.players
  {
    g.(ledgers := g.ledgers[p := l])
  }

  /** Player `q`'s count of free cells next to its own. */
  function Cache(g: Game, q: nat): nat
    requires q < |g.ledgers|
  {
    g.ledgers[q].freeAdjacent
  }

  /** Replaces player `q`'s count of free cells next to its own. */
  function SetCache(g: Game, q: nat, v: nat): (g': Game)
    requires q < |g.ledgers|
    ensures g'.board == g.board && g'.freeFields == g.freeFields
    ensures g'.maxAreas == g.maxAreas && g'.players == g.players
    ensures |g'.ledgers| == |g.ledgers|
    ensures g'.ledgers[q] == g.ledgers[q].(freeAdjacent := v)
    ensures forall r :: 0 <= r < |g.ledgers| && r != q ==> g'.ledgers[r] == g.ledgers[r]
    ensures Valid(g) ==> Valid(g')
  {
    g.(ledgers := g.ledgers[q := g.ledgers[q].(freeAdjacent := v)])
  }

  /** The counts of free neighbouring cells, one per ledger. */
  function Caches(g: Game): (cs: seq<nat>)
    ensures |cs| == |g.ledgers| && forall q :: 0 <= q < |cs| ==> cs[q] == Cache(g, q)
  {
    seq(|g.ledgers|, q requires 0 <= q < |g.ledgers| => g.ledgers[q].freeAdjacent)
  }

  /** Replaces every ledger's count of free neighbouring cells. */
  function WithCaches(g: Game, cs: seq<nat>): (g': Game)
    requires |cs| == |g.ledgers|
    ensures g'.board == g.board && g'.freeFields == g.freeFields
    ensures g'.maxAreas == g.maxAreas && g'.players == g.players
    ensures |g'.ledgers| == |g.ledgers|
    ensures forall q :: 0 <= q < |g.ledgers| ==> g'.ledgers[q] == g.ledgers[q].(freeAdjacent := cs[q])
    ensures Valid(g) ==> Valid(g')
  {
    g.(ledgers := seq(|g.ledgers|, q requires 0 <= q < |g.ledgers| => g.ledgers[q].(freeAdjacent := cs[q])))
  }

  /** `g'` differs from `g` at most in the counts of free neighbouring
      cells. */
  predicate OnlyCaches(g: Game, g': Game)
  {
    g'.board == g.board && g'.freeFields == g.freeFields &&
    g'.maxAreas == g.maxAreas && g'.players == g.players &&
    |g'.ledgers| == |g.ledgers| &&
    forall q :: 0 <= q < |g.ledgers| ==> g'.ledgers[q] == g.ledgers[q].(freeAdjacent := g'.ledgers[q].freeAdjacent)
  }
}
