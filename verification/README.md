# A verified model of a 2048 expectimax player

This project models the core of a 2048-playing program in Dafny. The core has three parts:

- **`Game2048`**: the board, its moves and its legality queries.
- **`Heuristics`**: the board features that the evaluation function combines.
- **`ExpectimaxAgent` and `GreedyAgent`**: the two players that choose a move.

The modules follow the program's structure:

- `Boards` (board.dfy): the board as a value, an N×N grid of integers where 0 is an empty cell and other values are tiles. It also holds:
  - the empty-cell list and the maximum tile;
  - the two rearrangements every move is built from: reversing each row, and transposing.
- `Moves` (moves.dfy): move resolution as functions on boards. The left slide of a row has three steps:
  - compress the tiles;
  - merge equal neighbours once, left to right;
  - pad with zeros.

  The other three directions are derived from it by reversing and transposing. `LegalMoves` and `GameOver` give the legality of moves.
- `MoveLaws` (move_laws.dfy) and `Legality` (legality.dfy): the laws of those moves:
  - merge-once;
  - sum preservation by rows and by columns;
  - the power-of-two invariant;
  - points never negative;
  - each direction expressed through LEFT;
  - exactly when a move changes nothing;
  - exactly when the game is over.
- `Game` (game.dfy): the class `Game2048`, whose `board` and `score` are updated in place. `MoveLeft` runs the row loop with the `skip`-flag merge scan. `MoveRight`, `MoveUp` and `MoveDown` reverse or transpose the board in place around it. `Move` updates the score only when the board changed. Every method is proved to leave the board equal to the corresponding function of `Moves`.
- `Heuristics` (heuristics.dfy): the six features and `evaluate`. Each feature computed by an accumulator loop is a method, proved equal to a specification function. The features' properties are lemmas about those functions. `log2` of a tile is its integer exponent, which is exact on powers of two.
- `Search` (search.dfy): the value `_expectimax` computes, as functions on boards:
  - a decision node takes the maximum over the legal moves;
  - a chance node takes the mean over the selected empty cells of 0.9·v(2) + 0.1·v(4);
  - the search is cut off at depth 0 or on a finished game.

  This module also holds the root choice (the first move of highest value), the node count, and the lemmas about all of them: argmax and tie-breaking, the `None` result, the sample size, value bounds and a node bound.
- `Agents` (agents.dfy): the classes `ExpectimaxAgent` and `GreedyAgent`. Every search step works on a clone, so the caller's game is never modified. The methods' `modifies` clauses name only the agent. Each method is proved to return what `Search` (or the greedy choice) defines, for any sampler that does what `random.sample` does (`SamplerOk`; `SamplerOkWitness` exhibits one). `nodesExplored` is proved to end up equal to the number of `_expectimax` calls that definition makes.

## Model

| member | source | states |
|---|---|---|
| Boards.Pow2 | heuristics.py:86 | every power of two 2^k is at least 1 |
| Boards.TileLog | heuristics.py:86 | on a tile 2^k (k ≥ 1), the integer log2 is exactly k: it is at least 1 and 2^log2(v) = v, as math.log2 gives |
| Boards.TileLogInjective | heuristics.py:86-96 | two tiles with the same log2 are equal tiles |
| Boards.DoubleTile | game.py:74 | doubling a tile during a merge gives a tile of at least 4 |
| Boards.RevRow | game.py:111 | a reversed row keeps its length |
| Boards.Reverse | game.py:109-111 | the board with every row reversed keeps its size |
| Boards.Column | game.py:107 | a column has one entry per row |
| Boards.Transpose | game.py:105-107 | the transposed board keeps its size |
| Boards.ReverseInvolution | game.py:109-111 | reversing every row twice gives back the board |
| Boards.TransposeInvolution | game.py:105-107 | transposing twice gives back the board |
| Boards.ReverseKeepsTiles | game.py:109-111 | reversal keeps the power-of-two invariant |
| Boards.TransposeKeepsTiles | game.py:105-107 | transposition keeps the power-of-two invariant |
| Boards.RowEmpties | game.py:26-27 | the listed cells are exactly the zero cells of one row from a column onward, in order |
| Boards.EmptyFrom | game.py:26-27 | the listed cells are exactly the zero cells of the rows from i onward, in row-major order |
| Boards.EmptyCells | game.py:24-27 | get_empty_cells lists exactly the zero cells of the board, in row-major order (hence each once) |
| Boards.Place | game.py:20 | writing a cell sets that cell to the value and leaves every other cell and the size unchanged |
| Boards.RowMax | game.py:129 | max(row) is an element of the row and no element exceeds it |
| Boards.MaxOfRows | game.py:129 | the maximum over the first k rows is a cell of those rows and no cell there exceeds it |
| Boards.MaxTile | game.py:127-129 | get_max_tile is the value of some cell and no cell exceeds it |
| Moves.Zeros | game.py:80 | [0] * k has k entries, all zero |
| Moves.Compress | game.py:65 | compressing never lengthens the row and leaves no zero |
| Moves.Merge | game.py:67-78 | the merge scan never lengthens the row and keeps a non-empty row non-empty |
| Moves.Pad | game.py:80 | padding makes the row exactly size cells long |
| Moves.SlideRow | game.py:64-81 | every slid row has exactly size cells |
| Moves.SlideLeft | game.py:60-82 | sliding left keeps the board's size |
| Moves.Slide | game.py:36-58 | every direction, including one outside 0..3, keeps the board's size |
| Moves.Changes | game.py:113-121 | one flag per direction 0..3 |
| MoveLaws.SumAppend | game.py:80 | (helper) the sum of a concatenation is the sum of its parts |
| MoveLaws.SumZeros | game.py:80 | zeros add nothing |
| MoveLaws.SumRev | game.py:111 | reversing a row keeps its sum |
| MoveLaws.RevRowInvolution | game.py:111 | row[::-1][::-1] is the row |
| MoveLaws.CompressAppend | game.py:65 | compression distributes over concatenation |
| MoveLaws.CompressZeros | game.py:65 | compressing zeros leaves nothing |
| MoveLaws.CompressNonZero | game.py:65 | a row without zeros compresses to itself |
| MoveLaws.CompressSum | game.py:65 | compressing keeps the row sum |
| MoveLaws.CompressTiles | game.py:65 | compressing a row of tiles and zeros leaves only tiles |
| MoveLaws.MergeSum | game.py:67-78 | the merge scan keeps the row sum |
| MoveLaws.MergeNonZero | game.py:67-78 | merging non-zero values yields non-zero values |
| MoveLaws.MergeTiles | game.py:74 | merging tiles yields tiles |
| MoveLaws.MergeIdentity | game.py:73-78 | without equal neighbours the scan changes nothing and earns nothing |
| MoveLaws.MergeShrinks | game.py:73-76 | any equal neighbours make the merged row strictly shorter |
| MoveLaws.MergePointsBounds | game.py:73-76 | each merge earns at least 4 and the points never exceed the row sum; no points exactly when nothing merged |
| MoveLaws.MergeAtMostPairs | game.py:67-78 | merge-once on every row: no output tile absorbs more than two input tiles, so the merged row is at least half as long as its input |
| MoveLaws.MergeOnceExample | game.py:67-76 | merge-once: [2,2,2,2] slides to [4,4,0,0] for 8 points (not [8,0,0,0]) |
| MoveLaws.SlideRowShape | game.py:63-81 | a slid row is packed (tiles, then zeros) and its tiles are the original tiles, in order, with equal neighbours merged leftmost first |
| MoveLaws.PadShape | game.py:80 | non-zero tiles padded with zeros are packed and compress back to themselves |
| MoveLaws.SlideRowSum | game.py:63-81 | sliding keeps the row's tile sum |
| MoveLaws.PadSum | game.py:80 | padding adds nothing to the sum |
| MoveLaws.SlideRowTiles | game.py:63-81 | sliding keeps every cell 0 or a power of two |
| MoveLaws.CompressAllZero | game.py:65 | an all-zero row compresses to nothing and is [0] * len |
| MoveLaws.PackedSplit | game.py:80 | a packed row is its tiles padded with zeros |
| MoveLaws.SlideRowFixed | game.py:63-81 | a left slide leaves a row unchanged iff it is packed and has no two equal touching tiles |
| MoveLaws.SlideLeftTiles | game.py:60-82 | _move_left keeps the power-of-two invariant |
| MoveLaws.SlideKeepsTiles | game.py:36-103 | every move keeps the power-of-two invariant |
| MoveLaws.RowsPointsNonNeg | game.py:75 | the points of rows of tiles are never negative |
| MoveLaws.PointsNonNeg | game.py:36-58 | on a board of tiles, move earns non-negative points, so the score never drops |
| MoveLaws.RowSumsKept | game.py:60-89 | LEFT and RIGHT keep every row's sum |
| MoveLaws.UpIs | game.py:91-96 | (helper) one unfolding of `Slide`: UP is transpose, slide left, transpose |
| MoveLaws.RightIs | game.py:84-89 | (helper) one unfolding of `Slide`: RIGHT is reverse, slide left, reverse |
| MoveLaws.DownIs | game.py:98-103 | (helper) one unfolding of `Slide`: DOWN is transpose, slide right, transpose |
| MoveLaws.ColumnOfTranspose | game.py:107 | column j of the transposed board is row j |
| MoveLaws.UpColumns | game.py:91-96 | UP slides every column toward row 0 as LEFT slides a row |
| MoveLaws.DownColumns | game.py:98-103 | DOWN slides every column toward the last row (the reversed column slid left, reversed back) |
| MoveLaws.ColumnSumsKept | game.py:91-103 | UP and DOWN keep every column's sum |
| MoveLaws.RightMirrorsLeft | game.py:84-89 | RIGHT on the mirrored board is the mirrored LEFT, for the same points |
| MoveLaws.UpDownTransposeLeftRight | game.py:91-103 | UP/DOWN on the transposed board are the transposed LEFT/RIGHT, for the same points |
| MoveLaws.ScenarioCompress | game.py:65 | compressing the example's rows gives [2], [], [], [2] |
| MoveLaws.ScenarioSlide | game.py:60-82 | the example slides left to [[2,0,0,0],[0,0,0,0],[0,0,0,0],[2,0,0,0]] |
| MoveLaws.ScenarioPoints | game.py:60-82 | the example's slide earns no points |
| MoveLaws.LeftScenario | game.py:36-82 | moving [[2,0,0,0],[0,0,0,0],[0,0,0,0],[0,2,0,0]] LEFT changes the board to the expected result for 0 points |
| MoveLaws.FlaggedSpec | game.py:113-121 | the flagged directions are exactly those below k whose flag is set, in increasing order |
| MoveLaws.LegalMovesSpec | game.py:113-121 | get_available_moves lists, in increasing order, exactly the directions 0..3 that change the board |
| MoveLaws.FlaggedNone | game.py:116-120 | with no direction flagged, none is listed |
| MoveLaws.NoRowsNoMoves | game.py:113-121 | a board with a legal move has at least one row |
| MoveLaws.LeftLegalIff | game.py:60-82 | LEFT changes the board iff some row has a gap before a tile or two equal touching tiles |
| Legality.LeftFixedIff | game.py:60-82 | LEFT leaves the board as it is iff every row is settled |
| Legality.RightFixedIff | game.py:84-89 | RIGHT leaves the board as it is iff every reversed row is settled |
| Legality.UpFixedIff | game.py:91-96 | UP leaves the board as it is iff every column is settled |
| Legality.ReverseCancel | game.py:109-111 | reversal can be moved to the other side of an equation |
| Legality.TransposeCancel | game.py:105-107 | transposition can be moved to the other side of an equation |
| Legality.DownFixedIff | game.py:98-103 | DOWN leaves the board as it is iff every reversed column is settled |
| Legality.HasPairRev | game.py:111 | a line has two equal touching tiles iff its reverse does |
| Legality.SettledBothWays | game.py:84-89 | neither LEFT nor RIGHT changes a line iff it is empty, or full with no two equal neighbours |
| Legality.GameOverAllFixed | game.py:123-125 | is_game_over iff none of the four directions changes the board |
| Legality.GameOverLines | game.py:123-125 | is_game_over iff every row and column is settled both ways |
| Legality.GameOverIff | game.py:123-125 | is_game_over iff the board is all zeros, or full with no two equal touching tiles |
| Legality.MergeableNotOver | game.py:123-125 | a board with two equal touching tiles always has a legal move |
| Game.EmptyBoard | game.py:9 | the new grid is size×size zeros |
| Game.SpawnSpec | game.py:14-22 | with an empty cell, add_random_tile writes a 2 or a 4 into exactly one empty cell and nothing else; without one it changes nothing; the power-of-two invariant survives |
| Game.MergeScan | game.py:67-78 | the skip-flag loop builds exactly the merged row and its points |
| Game.SlideRowScan | game.py:64-81 | one row of _move_left: the slid row and the merge points of its compressed tiles |
| Game.RowsPointsStep | game.py:75 | the points grow by the next row's merge points |
| Game.MergePairAt | game.py:73-76 | equal neighbours at j become one doubled tile worth its value in points |
| Game.MergeSingleAt | game.py:77-78 | a tile unlike its right neighbour is kept for no points |
| Game.AppendAssoc | game.py:74 | (helper) concatenation is associative |
| Game.Game2048.constructor | game.py:7-12 | a new game is the empty size×size board with two spawns, score 0 |
| Game.Game2048.AddRandomTile | game.py:14-22 | returns True iff an empty cell existed; the board becomes the spawned board; the score is unchanged |
| Game.Game2048.Clone | game.py:29-34 | a fresh game with the same size, board and score |
| Game.Game2048.Move | game.py:36-58 | the board becomes the slide in that direction and the points are the merge points; moved iff the board changed; the score grows by the points only then; a direction outside 0..3 returns (False, 0) and changes nothing |
| Game.Game2048.MoveLeft | game.py:60-82 | the row loop leaves the left slide of the old board and returns its points |
| Game.Game2048.MoveRight | game.py:84-89 | reverse, slide left, reverse leaves the RIGHT slide and returns its points |
| Game.Game2048.MoveUp | game.py:91-96 | transpose, slide left, transpose leaves the UP slide and returns its points |
| Game.Game2048.MoveDown | game.py:98-103 | transpose, slide right, transpose leaves the DOWN slide and returns its points |
| Game.Game2048.TransposeBoard | game.py:105-107 | the board becomes its transpose; score and size are unchanged |
| Game.Game2048.ReverseBoard | game.py:109-111 | every row is reversed; score and size are unchanged |
| Game.Game2048.GetAvailableMoves | game.py:113-121 | the clone loop returns exactly the legal moves, in increasing order (see LegalMovesSpec), and changes nothing |
| Game.Game2048.IsGameOver | game.py:123-125 | true iff no move is legal |
| Heuristics.RowEmptiesCount | heuristics.py:37 | the zero count of a row equals the number of its listed empty cells |
| Heuristics.EmptyFromCount | heuristics.py:37 | the zero count of the rows equals the number of their listed empty cells |
| Heuristics.EmptyTiles | heuristics.py:35-38 | empty_tiles is the square of the number of empty cells |
| Heuristics.RowZerosAll | heuristics.py:37 | an all-zero row counts every cell |
| Heuristics.ZerosFromAll | heuristics.py:37 | an all-zero board counts every cell |
| Heuristics.Monotonicity | heuristics.py:41-71 | the totals loop returns max(up, down) + max(left, right) over raw-value drops between adjacent tiles |
| Heuristics.RowTrend | heuristics.py:50-58 | the inner row loop sums the drops and rises along one row |
| Heuristics.ColumnTrend | heuristics.py:61-69 | the inner column loop sums the drops and rises down one column |
| Heuristics.MonotonicityLaws | heuristics.py:41-71 | monotonicity is non-negative and unchanged by transposing the board |
| Heuristics.DropsReversed | heuristics.py:55-56 | the drops of the reversed line are the rises of the line |
| Heuristics.LineDropsReversed | heuristics.py:55-56 | reading a line backwards turns its drops into rises |
| Heuristics.LinesDropsReversed | heuristics.py:50-58 | mirroring every row swaps the left and right totals |
| Heuristics.LinesCons | heuristics.py:47-71 | a line put in front adds its own drops and rises to the totals |
| Heuristics.LinesBackwards | heuristics.py:47-71 | listing the lines in the opposite order keeps both totals |
| Heuristics.ColumnsMirrored | heuristics.py:61-69 | the columns of the left-right mirrored board are the board's columns, right to left |
| Heuristics.MonotonicityMirror | heuristics.py:41-71 | monotonicity is unchanged by mirroring the board left to right (the mirror partner of the transpose law) |
| Heuristics.Smoothness | heuristics.py:74-98 | the double loop returns the penalty summed cell by cell |
| Heuristics.SmoothAtSpec | heuristics.py:85-96 | one cell's penalty is never positive; it is zero without a different tile right or below; negative with one |
| Heuristics.SmoothRowSpec | heuristics.py:84-96 | a row's penalty is never positive, zero without a rough cell, negative with one |
| Heuristics.SmoothRowsSpec | heuristics.py:83-96 | the same for the first k rows |
| Heuristics.SmoothnessSpec | heuristics.py:74-98 | smoothness ≤ 0; 0 when no tile touches a different tile to its right or below; on tiles, 0 exactly then |
| Heuristics.MergePotential | heuristics.py:131-149 | the double loop returns the count of equal right/down neighbour pairs of tiles |
| Heuristics.MergeRowSpec | heuristics.py:139-147 | a row's count is positive iff one of its cells pairs, and is bounded by the neighbours it has |
| Heuristics.MergeRowsSpec | heuristics.py:139-147 | the count over k rows is positive iff some cell pairs, and bounded |
| Heuristics.MergePotentialSpec | heuristics.py:131-149 | 0 ≤ merge_potential ≤ 2·size·(size−1); positive iff two equal tiles touch in a row or column |
| Heuristics.MergePotentialNotOver | heuristics.py:131-149 | a board with merge potential is never over |
| Heuristics.MaxTileScore | heuristics.py:101-109 | 0 on an empty board; on tiles otherwise the k ≥ 1 with 2^k the largest cell |
| Heuristics.Corners | heuristics.py:119-124 | the four corner values |
| Heuristics.CornerBonus | heuristics.py:112-128 | 20000 iff some corner holds a value no cell exceeds, else 0 |
| Heuristics.AllZeroFeatures | heuristics.py:35-128 | an empty board has corner bonus 20000, max-tile score 0, N⁴ for empty tiles, 0 monotonicity, smoothness and merge potential |
| Heuristics.ZeroDrops | heuristics.py:55-56 | an all-zero line has no drops or rises |
| Heuristics.ZeroLines | heuristics.py:50-58 | all-zero lines have no drops or rises |
| Heuristics.AllZeroLinesFlat | heuristics.py:41-71 | an empty board has zero totals by rows and by columns |
| Heuristics.Evaluate | heuristics.py:7-32 | evaluate is the weighted sum of the five features with the weights in force |
| Heuristics.DefaultScore | heuristics.py:16-32 | without weights, evaluate weighs the features 10, 4, 0.5, 2 and 1 |
| Heuristics.MissingCornerWeight | heuristics.py:30 | a weights dict without corner_bonus weighs it 1.0 |
| Heuristics.EmptyBoardScore | heuristics.py:7-128 | an empty N×N board evaluates to 10·N⁴ + 20000 by default |
| Search.SamplerOkWitness | expectimax_agent.py:122 | taking the first k cells is a sampler that meets `SamplerOk`, so the search functions and lemmas that require it apply |
| Search.SelectedSpec | expectimax_agent.py:111-125 | a chance node expands min(4, count) cells when more than 6 are empty and depth < 2, all of them otherwise; at least one when any is empty; distinct empty cells of the board |
| Search.MoveScores | expectimax_agent.py:96-102 | one score per move |
| Search.RootScores | expectimax_agent.py:45-51 | one score per legal move |
| Search.MoveScoresAt | expectimax_agent.py:96-102 | the i-th score is the chance-node value of the i-th move's clone |
| Search.FirstArgMax | expectimax_agent.py:53-55 | the kept index lies within the scores |
| Search.FirstArgMaxSpec | expectimax_agent.py:53-55 | the kept index holds a maximum, and every earlier score is strictly smaller |
| Search.BestMoveSpec | expectimax_agent.py:38-58 | get_best_move is None iff no move is legal; otherwise a legal move whose value is maximal and strictly above every smaller legal direction |
| Search.LegalMovesSorted | game.py:113-121 | legal moves are listed in increasing order |
| Search.RootScoreAt | expectimax_agent.py:45-51 | the i-th root score is the value of the i-th legal move |
| Search.FirstArgMaxSnoc | expectimax_agent.py:53-55 | a new score takes the lead only when strictly larger |
| Search.MoveScoresStep | expectimax_agent.py:96-102 | one more move scored appends its value |
| Search.SeqMaxSpec | expectimax_agent.py:90-104 | the max fold returns one of the scores and none is larger |
| Search.SeqMaxSnoc | expectimax_agent.py:102 | max_score = max(max_score, score) |
| Search.FirstArgMaxIsMax | expectimax_agent.py:45-55 | the root loop's best score equals the max fold of _max_node |
| Search.BestMoveAttains | expectimax_agent.py:25-104 | the chosen move is worth exactly the decision-node value of the board |
| Search.OnlyMove | expectimax_agent.py:38-58 | with a single legal move, that move is chosen at every depth |
| Search.MaxValueSpec | expectimax_agent.py:86-104 | a decision node is the evaluation without moves, else at least every move's value and equal to one |
| Search.ScaleIsProduct | expectimax_agent.py:146 | n copies of x add up to n·x |
| Search.MeanBounds | expectimax_agent.py:146 | the mean of n values in [lo, hi] is in [lo, hi] |
| Search.ValueBounds | expectimax_agent.py:60-84 | if every evaluation lies in [lo, hi], so does every _expectimax value (the bound is over all boards, so it applies to bounded evaluators, not to `Heuristics.evaluate`, which grows without limit with the tiles) |
| Search.ExpandBounds | expectimax_agent.py:76-84 | the same for a node with plies left |
| Search.MaxValueBounds | expectimax_agent.py:86-104 | the same for a decision node |
| Search.ChanceValueBounds | expectimax_agent.py:106-146 | the same for a chance node |
| Search.SumChanceBounds | expectimax_agent.py:127-143 | the expected_score of k cells lies between k·lo and k·hi |
| Search.SumChanceStep | expectimax_agent.py:130-143 | one more cell adds its cell_expected and its node count |
| Search.MovesNodesStep | expectimax_agent.py:96-101 | one more move adds its subtree's node count |
| Search.MoveValueBounds | expectimax_agent.py:96-101 | a move's value lies in [lo, hi] |
| Search.CellValueBounds | expectimax_agent.py:131-142 | cell_expected lies in [lo, hi] |
| Search.MulMono | expectimax_agent.py:73 | (arithmetic helper) multiplication is monotone |
| Search.MulStep | expectimax_agent.py:73 | (arithmetic helper) one more factor adds one more term |
| Search.NodesBound | expectimax_agent.py:60-84 | one _expectimax call with d plies makes between 1 and TreeSize(max(4, 2·N²), d) calls (termination with a bound) |
| Search.ExpandNodesBound | expectimax_agent.py:76-84 | the calls below a node with plies left are within the branching bound |
| Search.MaxNodesBound | expectimax_agent.py:90-104 | a decision node has at most 4 subtrees |
| Search.ChanceNodesBound | expectimax_agent.py:111-146 | a chance node has at most 2·N² subtrees |
| Search.MovesNodesBound | expectimax_agent.py:96-102 | k moves make at most k subtrees |
| Search.CellsNodesBound | expectimax_agent.py:130-143 | k cells make at most 2k subtrees |
| Search.MoveNodesBound | expectimax_agent.py:97-101 | a move makes one subtree |
| Search.CellNodesBound | expectimax_agent.py:132-139 | a cell makes two subtrees |
| Search.LegalMovesAtMostFour | game.py:113-121 | at most four moves are legal |
| Search.FlaggedLength | game.py:113-121 | at most k directions are flagged among k |
| Search.DistinctCellsBound | expectimax_agent.py:122 | distinct cells of an N×N board number at most N² |
| Search.SubsetCard | expectimax_agent.py:122 | (helper) a subset is no larger |
| Search.DistinctSetSize | expectimax_agent.py:122 | (helper) distinct cells form a set of the same size |
| Search.DisjointUnionCard | expectimax_agent.py:122 | (helper) disjoint sets add up |
| Search.CellSetSize | expectimax_agent.py:122 | an N×N board has N² cells |
| Search.RowsOfCells | expectimax_agent.py:122 | (helper) r rows have r·N cells |
| Search.CellRowsSplit | expectimax_agent.py:122 | (helper) one more row adds its cells |
| Search.RowOfCells | expectimax_agent.py:122 | (helper) one row has N cells |
| Agents.Ev | expectimax_agent.py:77 | Heuristics.evaluate as an evaluator agrees with evaluate on every board with a row |
| Agents.EvaluateAs | expectimax_agent.py:77 | calling evaluate gives the evaluator's value |
| Agents.MovedClone | expectimax_agent.py:47-48 | a fresh clone moved that way holds the slid board |
| Agents.PlacedClone | expectimax_agent.py:132-133 | a fresh clone with the tile written holds the placed board |
| Agents.TracksStep | expectimax_agent.py:53-55 | the best_move/best_score update keeps the first move of highest score seen so far |
| Agents.ExpectimaxAgent.constructor | expectimax_agent.py:12-22 | the agent keeps depth and weights and starts at zero nodes |
| Agents.ExpectimaxAgent.GetBestMove | expectimax_agent.py:25-58 | returns the first legal move of maximal chance-node value (None without legal moves); nodes_explored is reset and ends at the exact number of _expectimax calls |
| Agents.ExpectimaxAgent.ChooseMove | expectimax_agent.py:42-56 | the root loop keeps the first move of highest score and counts its subtrees |
| Agents.ExpectimaxAgent.Expectimax | expectimax_agent.py:60-84 | returns the _expectimax value and adds exactly its call count to nodes_explored |
| Agents.ExpectimaxAgent.MaxNode | expectimax_agent.py:86-104 | returns the decision-node value and counts its subtrees |
| Agents.ExpectimaxAgent.ScoreMove | expectimax_agent.py:96-101 | a clone moved that way, searched one ply shallower as a chance node |
| Agents.ExpectimaxAgent.ChanceNode | expectimax_agent.py:106-146 | returns the chance-node mean over the selected cells and counts its subtrees |
| Agents.ExpectimaxAgent.ExpectedSum | expectimax_agent.py:127-143 | the accumulator loop sums cell_expected over the cells |
| Agents.ExpectimaxAgent.CellExpected | expectimax_agent.py:130-142 | 0.9 · the value with a 2 + 0.1 · the value with a 4 |
| Agents.ExpectimaxAgent.TileScore | expectimax_agent.py:132-139 | a clone with the tile written, searched one ply shallower as a decision node |
| Agents.GreedyScores | expectimax_agent.py:169-172 | one greedy score per move |
| Agents.GreedyScoreAt | expectimax_agent.py:169-172 | the i-th greedy score is the points plus evaluation of the i-th move |
| Agents.GreedyScoresStep | expectimax_agent.py:169-172 | one more move scored appends its score |
| Agents.GreedyMoveSpec | expectimax_agent.py:160-178 | the greedy choice is None iff no move is legal; otherwise a legal move whose points plus evaluation is maximal and strictly above every smaller legal direction |
| Agents.GreedyAgent.GetBestMove | expectimax_agent.py:160-178 | returns the greedy choice: None without legal moves, else the first legal move of highest points plus evaluation |
| Agents.GreedyAgent.ChooseMove | expectimax_agent.py:166-178 | the loop keeps the first of the given moves whose points plus evaluation is highest |
| Agents.GreedyAgent.ScoreMove | expectimax_agent.py:170-172 | the points of a moved clone plus the default evaluation of its board |

## Left out

- Time: `time.time()`, `time_taken` and `get_stats` are left out. They hold only wall-clock measurements and a division by them.
- Randomness:
  - `random.choice` and `random.random()` in `add_random_tile` become a `Draw` parameter: the index of the chosen empty cell and whether the tile is a 2.
  - `random.sample` becomes a `Sampler` parameter. `SamplerOk` constrains it, for 1 ≤ k ≤ the population's length, to return k members of the population, distinct whenever the population's members are distinct (as the list of empty cells always is). Which positions it picks is left open, but `pick` is one pure function of the population and k: every chance node whose empty-cell list is the same gets the same sample, even on different boards. The source draws afresh at each chance node, so `ExpectimaxAgent.GetBestMove`'s result is characterised only for runs in which equal empty-cell lists yield equal samples.
  - Probability distributions are not modelled.
- Floating point: weights, evaluations and search values are `real`, with no IEEE rounding. `math.log2` is the integer exponent. This is exact on the powers of two a well-formed board holds.
- Heuristics.Smoothness: uses the integer exponent, so on a positive cell that is not a power of two the value differs from `math.log2`. On a negative cell `math.log2` raises `ValueError`, while `Log2` gives 0 and no error is modelled. Such cells break the board invariant that `SlideKeepsTiles` and `SpawnSpec` preserve.
- Heuristics.MaxTileScore: the same integer log2, for the same reason. When the largest cell is negative, `math.log2` raises `ValueError`, while the model gives 0.
- Game.Game2048.Clone: the fresh `Game2048` that clone constructs spawns two random tiles, which are overwritten at once. The model gives that constructor fixed draws, which are then overwritten.
- `Game2048.__str__` is left out: it is display formatting only.
- Agents.ExpectimaxAgent.GetBestMove: requires `depth >= 1`. With depth 0 the source starts the search at depth −1, which never reaches the depth-0 cut-off. The search then runs until the game is over, which the model cannot bound.
- The search methods below the root require a board with at least one row. `evaluate` raises on a board without rows (the max of an empty sequence). `GetBestMove` itself needs no such requirement: a board without rows has no legal move.
- Agents.Ev: evaluators are passed as ghost parameters. `EvaluatesWith` ties them to `Heuristics.evaluate` with the agent's weights, so the search functions are stated over any evaluator.
- The methods `ScoreMove`, `ChooseMove`, `ExpectedSum`, `CellExpected`, `TileScore`, `MovedClone`, `PlacedClone`, `EvaluateAs`, `GreedyAgent.ChooseMove`, `GreedyAgent.ScoreMove`, `SlideRowScan`, `RowTrend` and `ColumnTrend` have no counterpart in the source. Each is a loop or a loop body of the source method named in its row, extracted so that it can be proved on its own.
- Behaviour of the code that the model keeps as written:
  - The evaluator's weights are fixed: the defaults of `Heuristics.evaluate`, or the weights the caller supplies. They do not change with the game phase.
  - Monotonicity sums differences of raw tile values, not of their log2.
  - A direction outside 0..3 is ignored: `move` leaves the board and the score unchanged and returns `(False, 0)`.
  - The all-zero board counts as game over although every cell is empty, because no move changes it (`GameOverIff`). A board with an empty cell and at least one tile is never over.
- Default arguments are not modelled: `size=4` of `Game2048`, and `depth=4` and `heuristic_weights=None` of `ExpectimaxAgent`. Callers pass them explicitly (`None` as `Option.None`).
- Heuristics.Evaluate: caller weights are a `Weights` record with every key present, so the `KeyError` that `evaluate` raises on a dictionary missing one of the four required keys is not modelled; only the optional `corner_bonus` key may be absent.
- Properties that are not proved: that a greater depth never explores fewer nodes, and anything about the distribution of sampled cells.
