# gamma — a verified model of the rules engine

Gamma is a territory game on a `width × height` grid. Players `1..players`
claim empty cells one at a time. A player's cells split into 4-connected
*areas*, and no player may hold more than `max_areas` of them. Once per
game, each player may make a *golden move*: it takes a cell from another
player, provided neither player ends up over the area limit.

This project models the engine in Dafny:

- the game state: a board of `(owner, area)` cells, plus one ledger per
  player holding the area count, the area-id tables, the busy-field counter,
  the count of free cells next to the player's cells, and the golden-move
  flag;
- the queries: busy fields, free fields and "golden move possible";
- the two moves, `gamma_move` and `gamma_golden_move`, with all of their
  bookkeeping:
  - searches over the board for neighbouring area ids;
  - the flood-fill relabel;
  - merging areas around a new cell;
  - the count of areas a captured cell splits off;
  - the incremental counts of free neighbouring cells;
- `gamma_board`, which renders the board as text, with its decimal digit
  count `log_10`;
- `isNumberOfWordsCorrect`, the command-line shape validator.

The C code's `uint32_t` and `uint64_t` arithmetic is written out as
`Machine.Wrap32` and `Machine.Wrap64` wherever it can wrap. The visited flags
of the searches are a set of marked cells, threaded through every traversal.
The linked-list queue is a sequence.

The main results:

- `Engine.Move` and `Capture.GoldenMove` are all-or-nothing. They answer
  exactly the legality rule, and a refused move changes nothing.
- Every successful move keeps `Rules.Invariant`, which says:
  - the field counters agree with the board;
  - each player's count of free neighbouring cells is exact;
  - adjacent cells of one owner share an area id.
- From the counters, `Rules.Conservation` gives
  `free_fields + Σ busy_fields == width·height`.
- The area cap is kept under stated conditions that the C code does not
  test: the 32-bit area counts do not wrap, the old owner of a captured cell
  counts at least one area, and the captured cell's id and its recorded size
  are nonzero. The section on what is left out names the conditions of each
  member.
- The board text reads back to the board's owners (`Render.BoardTextRoundTrip`).
- The word validator accepts exactly the lines of the expected shape
  (`Input.WordsCorrectIffShape`).

The C code has some quirks, and they are modelled as written:

- `reset_area_info` checks the right neighbour twice and never checks the up
  neighbour, so an absorbed "up" id keeps its slot.
- `area_size` sums neighbour sizes without removing duplicate ids, and a
  golden move resets it to 1. It is only used to choose the surviving id.
- Separate components may keep one id after a split, so `count_areas` counts
  ids, not components.
- In the split golden branch (`Capture.CaptureSplit`), where only the old
  owner has neighbours of the cell, the new owner's tables are written at the
  id the cell carries after the old owner's areas are merged, an id the old
  owner chose, not a fresh one of the new owner's.

The written description of the board format shows bracketed cells once there
are ten or more players. The code pads each cell with one space on each side
(`src/gamma.c:607-646`), and the model follows the code.

## Model

| member | source | states |
|---|---|---|
| Machine.Wrap32 | src/gamma_t.h:35-69 | the value a `uint32_t` holds: below 2^32, the identity in range, and a negative value in range gains 2^32 |
| Machine.Wrap64 | src/gamma_t.h:47-54 | the value a `uint64_t` holds: below 2^64, the identity in range, and a negative value in range gains 2^64 |
| Grid.EmptyBoard | src/gamma.c:84-92 | the new board has the requested size and every cell is owner 0, area 0 |
| Grid.AllPosCard | src/gamma.c:137 | a board has exactly `width·height` cells, the value `free_fields` starts from |
| Engine.New | src/gamma.c:47-140 | no game iff width, height, players or areas is 0, or `players + 1` wraps to 0; otherwise every cell is empty, `free_fields = width·height`, every ledger is zeroed with an unused golden move, and the invariant and the area cap hold |
| Engine.BusyFields | src/gamma.c:165-170 | 0 for player 0 or a player above `players`; otherwise the number of cells the player owns |
| Engine.FreeFields | src/gamma.c:172-183 | 0 for an invalid player; the number of free cells next to the player's cells when the player holds `max_areas` areas; otherwise the number of free cells |
| Engine.SingleArea | src/gamma.c:288-297 | true iff no 4-neighbour of the cell belongs to the player |
| Engine.NextFreeAreaNumber | src/gamma.c:305-311 | returns the smallest id at least 1 whose slot is 0 |
| Engine.Move | src/gamma.c:584-596 | succeeds iff the player, the coordinates and the empty cell are valid and an isolated cell leaves room under `max_areas`; a refused move changes nothing; on success the cell is the player's, `free_fields` drops by one, only that player's busy fields grow, the isolated or merged outcome holds, and the invariant is kept, and so is the area cap when the cell is isolated or its neighbouring ids number at least 1 and at most one more than the areas held |
| Engine.MoveIsolated | src/gamma.c:324-353 | a cell with no neighbour of the player opens an area with the smallest free id, raises the area count by one, changes no other cell, and keeps the invariant and the cap |
| Engine.MoveMerged | src/gamma.c:324-353 | a cell next to the player's cells relabels their areas with the surviving id, lowers the area count by the number of neighbouring ids less one, and keeps the invariant; the cap holds when that count is at least 1 and at most one more than the areas held |
| Engine.IsolatedCapped | src/gamma.c:332-345 | when only the mover's ledger changed, beyond the counts of free neighbouring cells, and the mover's area count is at most `max_areas`, every player is at or under `max_areas` |
| Rules.Conservation | src/gamma.c:120-137 | whenever the counters agree with the board, `free_fields + Σ busy_fields == width·height` |
| Rules.MergeKeepsConsistent | src/bfs.c:456-479 | after the merged cells take the surviving id, adjacent cells of one owner away from the new cell still share an id, and the player's neighbours of the new cell carry the survivor |
| Bfs.NeighbourIdList | src/bfs.c:208-245 | the ids of the four neighbours in the order the C code reads them, 0 for a cell off the board or not the player's |
| Bfs.CountAreas | src/bfs.c:208-245 | the number of distinct nonzero area ids among the player's in-board 4-neighbours, at most 4 |
| Bfs.CountAreasIsSetSize | src/bfs.c:221-244 | the C code's count of new values in the four-slot list equals the size of the set of nonzero ids |
| Bfs.ResetVisited | src/bfs.c:167-206 | clears exactly the marks reachable from the start through marked cells, the start's included, and no other mark |
| Bfs.Search | src/bfs.c:247-322 | true at once when begin is end; otherwise true iff end is reachable from begin through the player's cells with the given id; every mark is cleared on return |
| Bfs.Relabel | src/bfs.c:332-379 | sets the id on exactly the given cells and keeps every owner |
| Bfs.SetNewAreaNumber | src/bfs.c:332-379 | does nothing when the start is not the player's; otherwise sets the id on exactly the start's 4-connected component of the player's cells; owners and marks are left as they were |
| Traversal.Traverse | src/bfs.c:247-322 | the breadth-first search reaches exactly the cells reachable from the start through the allowed cells, and answers whether the target is one of them |
| State.EmptyLedger | src/gamma.c:106-129 | a new player has no areas, no busy or neighbouring free fields and an unused golden move, and its two id tables hold `max_areas + 9` slots, all 0 |
| Areas.ResetAreaInfo | src/bfs.c:391-417 | zeroes the number and size slots of the ids held by the player's left, right and lower neighbours, unless a slot's number is the new one; the right neighbour is checked twice and the upper neighbour never |
| Areas.Spread | src/bfs.c:430-482 | relabels with the given id exactly the cells reachable from one neighbour through the player's cells |
| Areas.SpreadAround | src/bfs.c:430-482 | relabels with the survivor's id exactly the cells reachable from any of the four neighbours |
| Areas.UpdateOneDirection | src/bfs.c:430-482 | the merged cells and the new cell carry the survivor's id and nothing else changes; the survivor's slot records the new size and the other slots are released as `reset_area_info` releases them |
| Areas.SizeOf | src/bfs.c:486-500 | the recorded size of a neighbour's id is a 32-bit value and is positive only for the player's cells |
| Areas.Survivor | src/bfs.c:486-500 | the chosen neighbour has the largest recorded size, with ties broken in the order up, left, right, down |
| Areas.MergedSize | src/bfs.c:501 | the summed sizes of the four neighbours plus one, as a 32-bit value |
| Areas.GammaUpdateArea | src/bfs.c:484-527 | the merged cells take the surviving id; only the player's area count moves, by −(count − 1) without `add` and by +(count − 1) with it, with 32-bit wrap |
| Adjacency.IsSingleNeighbour | src/gamma.c:442-464 | true iff the cell has exactly one neighbour of the player |
| Adjacency.FirstPlayerOccurrence | src/gamma.c:388-408 | true iff the owner at position i does not appear earlier among the neighbours |
| Adjacency.NeighbourOwners | src/gamma.c:417-429 | the owners of the four neighbours, 0 off the board |
| Adjacency.UpdateAdjacentFields | src/gamma.c:544-582 | changes only the counts of free neighbouring cells: each distinct other owner around the cell loses one from a positive count, and the mover gains one for each free neighbour that only the new cell connects it to, less one if it already touched the cell |
| Adjacency.BumpAll | src/gamma.c:500-531 | stepping the count over the four neighbours moves it by the number of free neighbours that the player alone touches |
| Adjacency.GoldenCaches | src/gamma.c:500-531 | only the old and the new owner's counts change |
| Adjacency.GoldenUpdateAdjacentFields | src/gamma.c:500-531 | gives the cell to the new owner and changes only the counts of free neighbouring cells, as the two-step recount moves them |
| Exactness.MoveKeepsCacheExact | src/gamma.c:544-582 | after a move, every player's count equals the number of free cells next to its cells |
| Exactness.GoldenKeepsCacheExact | src/gamma.c:500-531 | after a capture, every player's count equals the number of free cells next to its cells |
| Golden.GoldenCountAreas | src/gamma.c:230-277 | leaves the board as it was, returns the pair count of the victim's neighbours cut apart by the capture, 0 unless they carry exactly one id, and at most 6 |
| Golden.SameAreaUnconnected | src/gamma.c:200-214 | true iff the two cells carry the same id and the search through the player's cells of that id cannot get from the first to the second |
| Golden.GoldenPossibleOnField | src/gamma.c:692-719 | true iff the cell is another player's and the capture keeps both players within the area limit under the C code's 32-bit test |
| Golden.OnField | src/gamma.c:700-718 | the branches after the count reject an empty or own cell, an isolated capture at the limit, and an old owner whose count plus the split areas exceeds the limit |
| Golden.GoldenPossible | src/gamma.c:721-743 | true iff the player has not used its golden move, the counters show a cell owned by someone else, and some cell can be taken |
| Golden.FindCapture | src/gamma.c:729-742 | the row-by-row scan finds a cell iff some cell can be taken |
| Limits.GoldenAreasBound | src/gamma.c:230-277 | the split-area count is at most 6 and 0 when the victim has no neighbour of its own |
| Limits.OldIdsKept | src/gamma.c:777-803 | when the new owner's areas around a captured cell are merged, the old owner's neighbours of the cell still carry one id, or none when the cell was an area of its own |
| Capture.CaptureIsolated | src/gamma.c:761-776 | when neither player has a neighbour of the cell, the new owner opens an area with the smallest free id and the old owner loses one; the invariant is kept, and so is the cap when both counts allow it |
| Capture.CaptureSplit | src/gamma.c:777-803 | when only the old owner has neighbours, those areas are merged, the old count moves by the split areas, the survivor's id passes to the new owner with size 1, and the invariant is kept |
| Capture.CaptureJoin | src/gamma.c:808-829 | when the new owner has neighbours, its areas are merged around the cell, the survivor's size is set to 1, the old owner's count moves by the split areas, and the invariant is kept |
| Capture.IsolatedKeepsCap | src/gamma.c:764-773 | the isolated branch keeps every player within `max_areas`, when the new owner is below the limit and the old owner counts at least one area |
| Capture.SplitKeepsCap | src/gamma.c:777-803 | the split branch keeps every player within `max_areas`, when the new owner is below the limit, the cell's id and its recorded size are nonzero, and the old owner's count plus the split areas neither wraps nor exceeds the limit |
| Capture.JoinKeepsCap | src/gamma.c:808-829 | the join branch keeps every player within `max_areas`, when the cell's id is nonzero, the new owner's neighbouring ids number at least 1 and at most one more than its areas, and the old owner either counts at least one area and loses an isolated cell or stays within the limit with the split areas without wrapping |
| Capture.GoldenSpent | src/gamma.c:727 | after a golden move the same player's golden move is refused |
| Capture.GoldenMove | src/gamma.c:745-830 | succeeds iff the player and cell are valid, the golden move is still possible and the cell can be taken; a refused move changes nothing; on success the cell changes hands, one busy field moves from the old owner to the player, `free_fields` stays, the golden move is spent, and the invariant and (in range) the cap are kept |
| Capture.CaptureMove | src/gamma.c:756-830 | the capture succeeds iff the cell can be taken, and then has the outcome of the branch that applies |
| Digits.Log10 | src/gamma_t.c:12-21 | 0 iff the input is 0; otherwise the decimal digit count r with 10^(r−1) ≤ x < 10^r |
| Digits.CountDigits | src/gamma_t.c:12-21 | the division loop returns 0 for 0 and the decimal digit count otherwise |
| Digits.Log10Monotone | src/gamma_t.c:12-21 | the digit count does not decrease as the input grows |
| Digits.Log10Of32Bit | src/gamma_t.c:12-21 | a 32-bit value has at most ten decimal digits |
| Digits.DecimalRoundTrip | src/gamma.c:607-646 | reading back the digits written for a number gives the number |
| Digits.DecimalNoLeadingZero | src/gamma.c:607-646 | the digits of a positive number do not start with 0 |
| Input.SkipWhitespace | src/input.c:25-29 | advances only over blanks other than newline, and stops at newline or at the end of the string |
| Input.CheckWordsIsShape | src/input.c:31-58 | the word loop accepts iff the rest of the line is the expected number of blank-led digit words, then blanks, then a newline |
| Input.WordsCorrectIffShape | src/input.c:31-58 | `isNumberOfWordsCorrect` is true iff the line is `number` words of digits, each after at least one blank, then blanks and a newline |
| Input.NoWordsIsBlankLine | src/input.c:36-55 | with no words expected, the line is accepted iff it is blanks followed by a newline |
| Input.MissingBlankRefused | src/input.c:36-42 | a line that does not start with a blank is refused when a word is expected |
| Input.NonDigitInWordRefused | src/input.c:44-55 | when the first word, after its leading blanks, runs into a character that is not whitespace, not a digit and not the end of the string, the line is refused |
| Render.GlyphsRoundTrip | src/gamma.c:607-646 | the text of a cell reads back as its owner, with `.` for an empty cell |
| Render.BoardTextRoundTrip | src/gamma.c:648-678 | the board text has one line per row, top row first, and each line reads back as that row's owners |
| Render.BareTextLength | src/gamma.c:651-653 | with fewer than ten players the text is exactly `height·(width + 1)` characters |
| Render.BoardTextFits | src/gamma.c:651-656 | the text and its terminator fit in `height·(width + 1)·field_width + 1` characters computed without wrap-around |
| Render.AllocSize32Overflows | src/gamma.c:656 | a 65536 × 65536 board with 2 players gets a 32-bit buffer size smaller than its text |
| Render.ParseNumber | src/gamma.c:607-646 | one cell's text: the owner's digits or `.`, with one space on each side when there are ten or more players |
| Render.WriteRow | src/gamma.c:658-675 | one row's text is the cells of that row, left to right |
| Render.GammaBoard | src/gamma.c:648-678 | builds the board text row by row from the top, and it fits in the unwrapped allocation size |

## Left out

- Memory management: the malloc chain in `gamma_new`, its failure paths, `gamma_delete` and `checkNull`. The board and ledgers are immutable values, so running out of memory never happens in the model.
- The NULL checks on the game handle. A game value always exists in the model.
- `src/batch_mode.c`, `src/interactive_mode.c` and `src/gamma_main.c`: terminal I/O and command dispatch.
- `parseInput`, `word_to_int` and `check_window_size` in `src/input.c`. They are stdin, `strtoul`/`errno` and an `ioctl`, whose behaviour is outside the engine.
- Engine.Move: requires `MoveDefined`. A legal isolated move needs a free id slot, and a legal merge needs a neighbour of the player whose recorded size is positive. Without these the C code indexes past its tables or reads a zero size.
- Capture.GoldenMove: requires `GoldenDefined`. This is the same table condition for each capture branch.
- Engine.NextFreeAreaNumber: requires a free slot, because the C loop has no bound.
- Areas.GammaUpdateArea: requires `Mergeable`, the surviving-neighbour condition.
- Capture.GoldenMove: the area cap is proved only under `CapHypotheses`, none of which the C code tests: `max_areas + 6` stays below 2^32, so the old owner's count plus the split areas cannot wrap; the cell's id and the old owner's recorded size for it are nonzero; the old owner counts at least one area when it has no neighbour of the cell; and the new owner's neighbouring ids number at least 1 and at most one more than its count.
- Engine.Move: the area cap is proved only when the cell is isolated, or when its neighbouring ids number at least 1 and at most one more than the areas held. Otherwise the 32-bit subtraction in `gamma_update_area` can wrap.
- Capture.IsolatedKeepsCap: needs `IsolatedBounds`. The new owner holds fewer than `max_areas` areas, which the C code tests, and the old owner counts at least one area, which it does not test; with a count of 0 the decrement wraps.
- Capture.SplitKeepsCap: needs `SplitBounds`. The cell's id is nonzero, the old owner's recorded size for it is nonzero, and the old owner's count plus the split areas stays below 2^32. The C code tests none of these.
- Capture.JoinKeepsCap: needs `JoinBounds`. The cell's id is nonzero and the new owner's neighbouring ids number at least 1 and at most one more than its count. When the old owner has no neighbour of the cell, its count is at least 1; otherwise its count plus the split areas stays below 2^32. The C code tests none of these.
- Engine.MoveMerged: the area cap is proved only when the number of neighbouring ids is at least 1 and at most one more than the areas held. Otherwise the 32-bit subtraction in `gamma_update_area` can wrap.
- No claim is made that `area_size` is exact, or that `current_areas` equals the true number of components. The C code does not maintain either.
- Render.GammaBoard: returns the text as a value. The unwrapped buffer size is what is proved to fit, and the C code's 32-bit size is the finding below.

## Findings

| source | as written | input that shows it | evidently intended | confidence | as-written member | corrected member |
|---|---|---|---|---|---|---|
| src/gamma.c:656 | the buffer size `max_height * (max_width + 1) * width_of_field + 1` is computed in 32-bit unsigned arithmetic and wraps before the conversion to `size_t` | `gamma_new(65536, 65536, 2, 1)` and then `gamma_board`: the size wraps to 65537 bytes, but the text is 4295032832 characters plus the terminator | the size computed in `size_t` (64-bit) arithmetic, large enough for the text | not executed | Render.AllocSize32Overflows | Render.BoardTextFits |
