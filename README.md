# HexAtaxx engine core, modelled in Dafny

HexGo is a console program that plays HexAtaxx. The game is played on a
flower-shaped board of 61 hexagonal cells by two sides, Red and Yellow. A move
goes from one of the mover's cells to an empty cell. A target one step away is a
clone move. A target two steps away is a jump, which also empties the source. The
target takes the mover's colour, and so does every occupied cell one step from
the target.

The engine has three parts:

- A fixed coordinate graph. This is the static constructor of `Coord`, which
  builds `AllCoords`, `Indices`, `Connections` and `Reach`.
- A pool of reusable boards. These are `Board`'s static fields, behind
  `BoardAccessor.Get` and `Return`.
- A depth-limited search, `GetBestMoveFor`:
  - It clones the board once for each candidate move.
  - It scores each trial by the mover's byte-cast differential.
  - It searches the opponent's reply below the best `maxTrials` trials.
  - It picks the first trial of highest score.
  - It returns every other trial's board to the pool.

The model has six modules:

- `Wrappers`: Option, the C# `byte` and its unchecked cast, and sequence helpers.
- `Geometry`: the coordinate graph.
  - The cells are described independently, by `IsCell` and a hex distance.
  - The static constructor is a method, `BuildTables`, proved to build exactly
    those tables.
- `Rules`: one board as a sequence of 61 cell states.
  - Scores and the differential.
  - The legality and effect of `Board.Move`.
  - The candidate moves of a side: the `SelectMany` over `Cell.ValidMoves`.
- `Ordering`: LINQ's stable `OrderByDescending` on byte keys, plus `Take` and
  `First`.
- `Boards`: the pool, as the class `Arena`.
  - It holds the freed stack, the high-water mark, the boards created so far and
    the capacity.
  - It also holds the cells of every pooled board. A board is named by its pool
    index, as `Board.Index` names it.
  - `Get`, `Return`, `Clone` and `Move` are methods on it.
- `Search`: the value the search computes, and the search itself on the pool.
  - The value is the pure function `Best`: the plan of the returned trial and its
    chain of replies.
  - The sequential `GetBestMoveFor` is a method on the `Arena`, proved to return
    a trial whose plan is `Best`.
  - It is split into its phases: clone, score, expand, pick and return.
  - A `Trial` (HexGo/Program.cs, lines 366-373) is the datatype `Trial`: its board's pool index,
    the side, the move, the byte score, the end-game flag and the optional reply.
    `Plan` is the same without the pool index.
  - `Trial.Return` is the method `ReturnTrial`.

Two pool behaviours of the program are reproduced as written:

- Only the losers' own boards go back to the pool. The boards of an expanded
  loser's reply chain are never returned: `GetBestMoveFor` proves that every
  reply's slots, the losers' included, are still held when the search returns.
- A terminal trial is built on its caller's board. A trial whose reply is
  terminal therefore shares its board with that reply, and `Trial.Return` pushes
  that index twice (`TerminalReplyReturnedTwice`, `DoubleReturnUnsound`).
  `ReturnOwned` is the evidently intended `Trial.Return`; see "## Findings".

The search is proved under a local soundness condition of the ledger
(`Boards.Sound`): the caller holds its board, the freed stack has no repeats,
and enough fresh slots remain (`Search.Budget`). The trial it returns owns
(`Search.OwnedBoards`) only slots that it newly holds, each once, so giving them
back with `ReturnOwned` leaves the ledger sound for the next search.

## Model

| member | source | states |
|---|---|---|
| Geometry.AllCoords | HexGo/Program.cs:55-84 | the enumeration has 61 entries |
| Geometry.AllCoordsExactly | HexGo/Program.cs:60-84 | AllCoords contains exactly the cells of the board shape (columns 4-12, row+col even, tapered toward (4,8) and (20,8)), each once |
| Geometry.AddHead | HexGo/Program.cs:60-69 | the ten additions before the banded loop build the apex of the board, rows 4 to 7, in order |
| Geometry.AddBand | HexGo/Program.cs:72-77 | one pass of the banded loop appends the column pairs (row,col),(row+1,col+1) for col 4,6,8,10 and then (row,12) |
| Geometry.AddBands | HexGo/Program.cs:70-78 | the outer loop over rows 8,10,...,16 appends those bands in row order |
| Geometry.AddTail | HexGo/Program.cs:79-84 | the six additions after the banded loop append the base of the board, rows 18 to 20, in order |
| Geometry.BuildCoords | HexGo/Program.cs:60-84 | the hard-coded additions and the loops build exactly the list AllCoords |
| Geometry.Indices | HexGo/Program.cs:86 | the index dictionary is keyed by exactly the cells and maps AllCoords[i] to i |
| Geometry.IndicesAgree | HexGo/Program.cs:86 | the dictionary lookup agrees with the closed-form index of a cell |
| Geometry.CoordAtAgrees | HexGo/Program.cs:35-38 | Cell.Coord (AllCoords[i]) agrees with the closed-form cell at index i |
| Geometry.IndexBijection | HexGo/Program.cs:86 | index-of-cell and cell-at-index are inverse bijections between the 61 cells and 0..60 |
| Geometry.Connections | HexGo/Program.cs:90-98 | every connection of a cell is a cell of the board, and there are at most 6 |
| Geometry.ConnectionsExactly | HexGo/Program.cs:90-98 | a cell's connections are exactly the cells one hex step away |
| Geometry.Reach | HexGo/Program.cs:99-113 | every cell in a cell's reach is a cell of the board, and there are at most 12 |
| Geometry.ReachExactly | HexGo/Program.cs:99-113 | a cell's reach is exactly the cells two hex steps away |
| Geometry.Shifted | HexGo/Program.cs:90-113 | one candidate per offset, in the listed order, each displaced from the cell by exactly its offset |
| Geometry.OffsetsDistinct | HexGo/Program.cs:90-113 | neither offset list repeats an offset |
| Geometry.Intersect | HexGo/Program.cs:115-116 | LINQ Intersect yields exactly the elements in both lists, without repeats, and no more than the first list has |
| Geometry.ConnectionsAsBuilt | HexGo/Program.cs:90-98 | the six shifted candidates intersected with AllCoords are the connections, without repeats |
| Geometry.ReachAsBuilt | HexGo/Program.cs:99-116 | the twelve shifted candidates intersected with AllCoords are the reach, without repeats |
| Geometry.NeighbourTables | HexGo/Program.cs:88-117 | both neighbour relations are symmetric, a cell's two lists are disjoint, and no cell is its own neighbour |
| Geometry.FillNeighbours | HexGo/Program.cs:88-117 | the foreach fills both dictionaries with one entry per listed cell: its shifted candidates intersected with the list |
| Geometry.BuildTables | HexGo/Program.cs:58-118 | the static constructor yields 61 distinct cells, an index dictionary inverse to the list, and neighbour dictionaries keyed by the cells holding exactly the distance-1 and distance-2 cells |
| Rules.At | HexGo/Program.cs:245-248 | the indexer `this[Coord]` reads the cell at the one position whose coordinate is `c` |
| Rules.Other | HexGo/Program.cs:305 | the opponent is a side other than the team: Yellow exactly for Red, and Red for anything else, Empty included |
| Rules.Score | HexGo/Program.cs:298-301 | the count of a team's cells is at most the board size and zero exactly when the team is absent |
| Rules.ScoresSum | HexGo/Program.cs:298-301 | the Empty, Red and Yellow counts sum to the number of cells |
| Rules.Differential | HexGo/Program.cs:303-306 | on a board the differential lies in -61..61 |
| Rules.DifferentialSides | HexGo/Program.cs:303-306 | the two sides' differentials are opposite, and the differential plus twice the opponent's count plus the empty count is 61 |
| Rules.Destinations | HexGo/Program.cs:128-131 | every valid destination is a cell of the board, and there are at most 18 |
| Rules.DestinationsExactly | HexGo/Program.cs:128-131 | ValidDestinations are exactly the cells one or two steps away |
| Rules.CanMove | HexGo/Program.cs:264-268 | the three guards of Board.Move on the source's destinations, the source and the target; a move that passes them goes to a cell of the board other than its source |
| Rules.MovedAt | HexGo/Program.cs:269-275 | one cell after the move: the target takes the source's colour, and a cell changes only when it is the target, the source or a step neighbour of the target |
| Rules.Moved | HexGo/Program.cs:269-275 | the board after the guarded part of Board.Move is a board, equal to MovedAt cell by cell; its target holds the mover's colour, and only the target, the source and the target's step neighbours differ from before |
| Rules.Outcome | HexGo/Program.cs:260-276 | Board.Move leaves a board a board, and leaves it untouched when one of its guards fails |
| Rules.MoveEffect | HexGo/Program.cs:264-275 | after a legal move, the target holds the mover's colour; the source empties exactly when this is a jump; occupied step neighbours of the target take the mover's colour; empty cells other than the target stay empty; every other cell is unchanged |
| Rules.MoveConverts | HexGo/Program.cs:271-274 | after a legal move no step neighbour of the target holds the opponent's colour |
| Rules.EmptyDestinations | HexGo/Program.cs:42 | the Where keeps exactly the destinations whose cell is empty |
| Rules.ValidMoves | HexGo/Program.cs:40-43 | every move of a cell starts at that cell, and there are at most 18 |
| Rules.ValidMovesExactly | HexGo/Program.cs:40-43 | a move is among a cell's ValidMoves exactly when it goes from that cell to an empty cell one or two steps away |
| Rules.Candidates | HexGo/Program.cs:430-433 | every candidate move starts at a cell of the board, and there are at most 18 per cell |
| Rules.CandidatesUpToExactly | HexGo/Program.cs:430-433 | the SelectMany over the first n cells yields exactly the moves of the side from cells of index below n |
| Rules.CandidatesExactly | HexGo/Program.cs:430-433 | the candidate moves are exactly the moves of the side: from one of its cells to an empty cell one or two steps away |
| Rules.CandidatesAreLegal | HexGo/Program.cs:430-433 | for Red or Yellow every candidate passes all three guards of Board.Move (line 452 really moves each trial) |
| Rules.EmptyCandidatesAreIllegal | HexGo/Program.cs:430-433 | for Empty every candidate fails Board.Move, so each trial board stays a copy |
| Wrappers.ToByte | HexGo/Program.cs:453 | the unchecked `(byte)` cast keeps 0..255 and adds 256 to -256..-1, which covers every differential |
| Ordering.DescOrder | HexGo/Program.cs:458 | OrderByDescending yields one position per trial; which positions and in what order is stated by the two rows below |
| Ordering.DescOrderPermutation | HexGo/Program.cs:458 | OrderByDescending yields each trial position exactly once |
| Ordering.DescOrderSorted | HexGo/Program.cs:458 | the order is descending by score and stable among equal scores |
| Ordering.DescOrderFirst | HexGo/Program.cs:478 | First() of the order is a position of maximal score, and every earlier position has a strictly lower score |
| Ordering.Take | HexGo/Program.cs:458 | Take(k) is the prefix of length k, clamped to the length, and empty when k is not positive |
| Ordering.TopPositions | HexGo/Program.cs:458 | the taken positions are real trial positions without repeats |
| Ordering.TopPositionsHighest | HexGo/Program.cs:458 | no taken trial has a lower move score than a trial not taken |
| Boards.Acquire | HexGo/Program.cs:186-207 | Get pops the top of the freed stack, or, when the stack is empty, hands out the mark and advances it |
| Boards.Release | HexGo/Program.cs:209-212 | Return pushes the index on top of the freed stack and keeps the rest of the stack and the mark |
| Boards.ReleaseAcquire | HexGo/Program.cs:186-212 | Get after Return hands back the returned index and restores the ledger |
| Boards.LastInFirstOut | HexGo/Program.cs:186-212 | after returning a list of indices, as many Gets hand them back in reverse order and restore the ledger |
| Boards.FreshConsecutive | HexGo/Program.cs:194-205 | with nothing freed, n Gets hand out top, top+1, ..., top+n-1 and advance the mark by n |
| Boards.AcquireSound | HexGo/Program.cs:186-207 | on a sound ledger Get hands out an index nobody holds (popped or fresh), every held index stays held, and the mark rises by at most one |
| Boards.EmptyBoard | HexGo/Program.cs:234-237 | a new board has 61 cells and no Red or Yellow cell |
| Boards.Arena.constructor | HexGo/Program.cs:157-181 | an empty stack, mark 0, and the given capacity and number of empty boards |
| Boards.Arena.Get | HexGo/Program.cs:186-207 | pops the freed stack when it is not empty, otherwise hands out the next fresh index and advances the mark; no cells change |
| Boards.Arena.Return | HexGo/Program.cs:209-212 | pushes the index on the freed stack; nothing else changes |
| Boards.Arena.Clone | HexGo/Program.cs:250-258 | takes a board as Get does and makes its cells a copy of the source's; no other board changes |
| Boards.Arena.Move | HexGo/Program.cs:260-276 | reports exactly whether the guards hold, and sets the board's cells to the outcome of the move; no other board changes |
| Boards.Arena.Apply | HexGo/Program.cs:269-275 | once the guards have passed, the board's cells become the moved board; no other board and nothing in the ledger changes |
| Boards.Arena.ConvertAround | HexGo/Program.cs:271-274 | every occupied step neighbour of the target takes the target's colour; all other cells are kept |
| Boards.Placed | HexGo/Program.cs:269-270 | the first two writes of Board.Move: the target takes the source's colour, a jump empties the source, and every other cell is kept |
| Boards.Converted | HexGo/Program.cs:271-274 | the conversion loop's result is a board in which cells outside the target's step neighbours are kept and empty cells stay empty |
| Boards.ConvertedIsMoved | HexGo/Program.cs:269-275 | placing the mover's colour, emptying a jump's source, then converting around the target gives the moved board |
| Search.MoveScores | HexGo/Program.cs:450-454 | each trial's score after the first loop: the mover's differential on the moved board, unchanged when it is not negative and plus 256 when it is |
| Search.ExpandedPlan | HexGo/Program.cs:459-464 | an expanded trial keeps its side and move, does not end the game, has the opponent's search as its reply, and takes that reply's score |
| Search.Options | HexGo/Program.cs:450-476 | one final plan per candidate move, in the candidates' order, each for the side to move, making that move and not ending the game |
| Search.WinnerOf | HexGo/Program.cs:478 | the winner is a position of highest score, and every earlier position scores strictly lower |
| Search.Best | HexGo/Program.cs:428-487 | the search plan is for the side to move, and ends the game exactly when the side has no candidate move |
| Search.BestTerminal | HexGo/Program.cs:440-449 | with no move, the result has no move, ends the game, and scores the side's own cell count cast to a byte |
| Search.NoMovesExactly | HexGo/Program.cs:430-440 | there are no trials exactly when no cell of the side has an empty cell within two steps |
| Search.BestIsFirstMaximum | HexGo/Program.cs:478-486 | otherwise the result is the first trial of highest final score |
| Search.OptionMoves | HexGo/Program.cs:432-454 | trial i makes the i-th candidate move, does not end the game, and, if not expanded, scores the byte-cast differential of its moved board |
| Search.DepthZeroLeaves | HexGo/Program.cs:456 | at depth 0 no trial is expanded |
| Search.OnlyTopExpanded | HexGo/Program.cs:456-475 | with depth left, a trial is expanded exactly when it is among the first maxTrials of the stable descending order; its reply is the opponent's search one level down with maxTrials 10, whose score it adopts without negation |
| Search.ExpandedOutrankOthers | HexGo/Program.cs:456-458 | an expanded trial's move score is no lower than that of any trial left unexpanded |
| Search.ExpandedCount | HexGo/Program.cs:458 | at most maxTrials trials (none when it is not positive) and at most all trials are expanded |
| Search.LossOutranksGain | HexGo/Program.cs:453 | a negative differential wraps to 195..255 as a byte and so outranks every gain or draw |
| Search.NoCellsNoMoves | HexGo/Program.cs:430-431 | a side without cells has no move |
| Search.WipeOutScoresZero | HexGo/Program.cs:440-449 | an expanded trial whose move wipes out the opponent scores 0, the terminal reply's own count |
| Search.BudgetAtCapacity | HexGo/Program.cs:160 | Budget with maxTrials 10 is 1219878 slots at depth 3, within the capacity of 2500000, and above that capacity at every depth from 4 on |
| Search.StartTrials | HexGo/Program.cs:432-439 | one trial per candidate move, in order, each on a freshly acquired slot holding a copy of the board, with the indices Get hands out in turn; held boards are untouched |
| Search.ScoreOne | HexGo/Program.cs:452-453 | the trial's board becomes the outcome of its move, and the score is the mover's differential cast to a byte |
| Search.ScoreTrials | HexGo/Program.cs:450-454 | every trial board holds the outcome of its move, and every trial's score is the byte-cast differential; the pool ledger does not change |
| Search.PlayTrials | HexGo/Program.cs:432-454 | the Select and the first loop: one trial per candidate move, in order, each on a slot nobody held before that now holds the outcome of its move on the board, scored by the byte-cast differential; the caller's board stays held and held boards are untouched |
| Search.ExpandOne | HexGo/Program.cs:459-464 | the trial adopts the opponent's search result one level down and its score; the reply owns only slots newly held; held boards are untouched |
| Search.ActOne | HexGo/Program.cs:459-472 | one round of the foreach: the trial at the next taken position adopts its reply, every other trial is unchanged, the reply owns only slots newly held, and held boards are untouched |
| Search.ExpandTop | HexGo/Program.cs:469-475 | in the sequential foreach each taken trial adopts its reply and the others are unchanged, every trial keeps its board, every reply owns only slots newly held, and held boards are untouched |
| Search.ExpandedCells | HexGo/Program.cs:456-476 | through the foreach every trial keeps its move and stays non-terminal, and its slot keeps the outcome of that move |
| Search.ExpandPhase | HexGo/Program.cs:456-476 | with depth left the top trials take replies; afterwards every trial's plan is Best's option, the winner's plan is Best, every trial's slot holds its move's outcome, and every reply owns only slots newly held |
| Search.SearchOwns | HexGo/Program.cs:479-485 | the last Access returns only trial boards, so every reply's slots stay held, and the winner owns its own fresh slot and its reply's, each once |
| Search.ReturnLosers | HexGo/Program.cs:479-485 | every trial's board but the winner's is pushed, in trial order |
| Search.FinishSearch | HexGo/Program.cs:478-486 | the winner is the first trial of highest score, the freed stack grows by exactly the other trials' boards in order, and the winner and every reply own only slots newly held |
| Search.SearchMoves | HexGo/Program.cs:430-486 | with a move available, one trial per candidate with Best's option plans; the returned trial is the winner, makes one of the candidate moves, and its board is newly owned by the caller and holds that move's outcome; it owns only newly held slots, each once; every trial's reply, the losers' included, still holds its slots; held boards are untouched; the last pushes are the losers' boards |
| Search.GetBestMoveFor | HexGo/Program.cs:428-487 | the returned trial's plan is Best on the input board, and it owns only newly held slots, each once; a terminal result keeps the caller's board and leaves the pool as it was; otherwise the winner makes a candidate move and its board holds that move's outcome on the input board, the trials, the losers' returned boards and the still-held replies are as in SearchMoves, and the pool stays within the fresh-slot budget |
| Search.ChainBoards | HexGo/Program.cs:366-373 | the chain of a trial starts with its board and is longer than one exactly when it has a reply |
| Search.ReturnTrial | HexGo/Program.cs:375-390 | Trial.Return pushes the boards of the reply chain deepest first and the trial's own board last; cells do not change |
| Search.TerminalReplyReturnedTwice | HexGo/Program.cs:440-448 | a trial whose reply is terminal shares its board with that reply, so Trial.Return pushes that index twice |
| Search.DoubleReturnUnsound | HexGo/Program.cs:383-390 | after Trial.Return on such a trial the freed stack repeats an index, so the ledger is not sound whatever it held before |
| Search.TerminalReplyReturnedOnce | HexGo/Program.cs:383-390 | such a trial owns its board once: its terminal reply owns no slot |
| Search.ReturnOwned | HexGo/Program.cs:383-390 | the corrected Trial.Return pushes the owned slots deepest first, skipping terminal trials; cells do not change |
| Search.ReturnOwnedSound | HexGo/Program.cs:383-390 | giving back the slots a trial owns, held and without repeats, keeps the ledger sound, frees each of them, and leaves every other held slot held |

## Left out

- `Main`, `Board.Print`, `Move.New`, the `ToString` overrides and console input and output are not modelled: they are the interactive shell around the engine.
- The parallel branch of `GetBestMoveFor` (`AsParallel().ForAll`) is not modelled. Only the sequential `foreach` is, as if `parallel` were false; the recursive calls pass false anyway.
- `Board.Access`, the lock and the `AutoResetEvent` are not modelled. With one thread the lock has no effect, and `Trial.Return()` is just `Trial.Return(a)`.
- The static constructor of `Board` fills the pool from a background thread, 1000 boards at a time, up to 2500000. The capacity and the number of boards already created are constructor parameters of `Arena`.
- Boards.Arena.Get: requires a freed index or a created fresh board. The busy-waits (spinning on the growth thread; sleeping until another thread returns a board when the capacity is reached) are left out.
- Search.GetBestMoveFor: requires a sound ledger, the caller holding its board, and `Budget(depth, maxTrials)` created fresh slots above the high-water mark. The program checks none of this.
- Search.GetBestMoveFor: `Budget` counts every slot a search may take as a fresh one and gives no credit for reuse of freed slots. `BudgetAtCapacity` shows that this fits the capacity of 2500000 (line 160) up to depth 3 and exceeds it from depth 4 on. So the contract covers no search of depth 4 or more at the program's capacity, the game's depth-6 search (line 411) included, although with reuse such a search takes far fewer fresh boards.
- Search.GetBestMoveFor: the boards of an expanded loser's reply chain are never returned, and the ensures on `trials` shows them still held after the search. The model does not follow the game loop, so it does not show that these leaks exhaust the pool over several searches. Once fresh boards and freed indices run out, `Get` sleeps with the lock held (lines 194-204) and no board can come back.
- Search.GetBestMoveFor: after `best.Return()` (line 424) on a chain that ends in a terminal reply, the freed stack repeats an index (`DoubleReturnUnsound`). The ledger is then not `Sound`, so the contract covers no later search of that game. It does after `ReturnOwned`, by `ReturnOwnedSound`.
- Search.ReturnTrial: requires every board of the chain to be below the high-water mark, which holds for every board actually handed out.
- Boards.Arena.Move: requires the move's source to be a cell; the program throws for any other source, because the dictionary lookup fails.
- `Cell` and `Board` objects are represented by the pool index and the cell states. Their back references and the `Cell.Index` byte are not modelled.
- `Coord` stores row and column as bytes. The model uses unbounded integers. The static constructor only forms coordinates between 0 and 24, so the byte cast never wraps there.
- `GetBestMoveFor`'s `depth` is a byte and the model uses a `nat`. The cast `(byte)(depth - 1)` is only applied when depth is positive, so it never wraps.
- Search.GetBestMoveFor: tests for "no trials" before cloning, where the program tests after the clones. Both tests agree, because there is one clone per candidate move and with none nothing is cloned.
- The model proves no global no-double-free invariant for the pool, because the program can break one: see `TerminalReplyReturnedTwice`.

## Findings

| source | as written | input that shows it | evidently intended | confidence | as-written member | corrected member |
|---|---|---|---|---|---|---|
| HexGo/Program.cs:383-390 | `Trial.Return` pushes its reply chain's boards and then its own board. A terminal reply is built on the board it was searched on (lines 442-448), which is the trial's own board, so that board is pushed twice | a clone move into the last empty cell: the opponent then has no empty target, so its reply is terminal, on the trial's own board, and scores the opponent's full count; `best.Return()` at line 424 on such a winner pushes that board twice | every board handed out by `Get` goes back once, and a terminal trial, which was handed no board, gives none back | not executed; high | Search.DoubleReturnUnsound | Search.ReturnOwned |
