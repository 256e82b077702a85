# Teeko move engine — a verified Dafny model

This project models the move engine of `TeekoPlayer` in `game.py`. Teeko is played on a
5×5 board by two colours, black (`'b'`) and red (`'r'`). In the drop phase each side drops
pieces onto empty cells. Once eight pieces are on the board the game moves to the
relocation phase: a piece steps one king move into an empty neighbour. A player wins with
four of their pieces in a row, a column, a diagonal or a 2×2 box.

The model is split into modules that follow the engine's structure:

- `TeekoBoard` (`board.dfy`): pieces, cells (`' '` becomes `Empty`), coordinates, the 5×5
  board as a value, single-cell writes and cell counts.
- `Generation` (`successors.dfy`): the successor list of `succ` as a function.
  - A drop places my piece on each empty cell.
  - A relocation moves one of my pieces along the direction list NW, N, NE, W, E, SW, S, SE.
  - Lemmas cover the board each successor has, the generation order, and completeness.
- `Terminal` (`terminal.dfy`): `game_value`. It scans the 44 windows in the engine's order:
  - 10 horizontal;
  - 10 vertical;
  - 4 `\` diagonals;
  - 4 `/` diagonals;
  - 16 boxes.

  It is also proved against an independent, cell-wise definition of a win (`Wins`).
- `Heuristic` (`heuristic.dfy`): `game_alg`. Its 28 lines are the rows and columns interleaved, the two long diagonals,
  and the 16 boxes. Only lines that still contain an empty cell count. The result is
  `(my_max - opp_max) / 4`.
- `Search` (`search.dfy`): the tree `max_value`/`min_value` explore, and its plain minimax
  value. Scores are `-inf`, a finite real, or `+inf`.
- `Moves` (`moves.dfy`): `place_piece` as a board function, and the validation that
  `opponent_move` performs, with a distinct error value for each of its three checks.
- `Player` (`player.dfy`): the class `TeekoPlayer`.
  - It holds the engine's colour and its board.
  - Each of `succ`, `game_alg`, `max_value`, `min_value`, `make_move`, `place_piece` and `opponent_move` is an imperative method.
  - Each method is proved against the functions above.

The quirks of the engine are modelled as written:

- `succ` always places the engine's own piece, even for the opponent's plies in `min_value`.
- The search picks the phase from `depth > 3`, not from the board.
- Depth grows on recursion, and `depth == 0` is the leaf test.
- `make_move` calls `max_value(..., 0, ...)`, so every candidate is scored by `game_alg`
  alone (`ScoreSuccessors`).

The recursion is still proved to terminate, without a fuel bound. At depths 1–3 a
relocation keeps the number of empty cells and lowers `Budget(depth)`. At depth 4 and beyond
every drop removes an empty cell, and a full board has no drop successors.

`max_value`/`min_value` are proved to be fail-soft alpha-beta. Let `m` be the minimax value
of the same tree and `(alpha, beta)` a non-empty window. Then:

- a result inside the window equals `m`;
- a result at or below `alpha` bounds `m` from above;
- a result at or above `beta` bounds `m` from below.

With the full window (`-inf`, `+inf`) the result is `m` itself (`FullWindowExact`).

Two behaviours of the code that are easy to misread, both modelled as written:

- A relocation whose source equals its destination passes the adjacency test at
  game.py:132, because both differences are 0. It is then rejected as `DestinationOccupied`,
  because the source holds the opponent's piece.
- `make_move` scores each candidate with `max_value(..., 0, ...)`, which is a leaf call, so
  scoring is one ply of `game_alg`; the model keeps this.

## Model

| member | source | states |
|---|---|---|
| `TeekoBoard.Other` | game.py:16 | the opponent's colour differs from mine |
| `TeekoBoard.Put` | game.py:24-25 | the copied board holds the new value at the written cell and is unchanged everywhere else |
| `TeekoBoard.CountIn` | game.py:68-69 | `line.count(x)` is at most the length of the line |
| `TeekoBoard.CountInOpenLine` | game.py:70-72 | a line that still contains `' '` holds at most length−1 pieces of one colour |
| `TeekoBoard.CountCellsPut` | game.py:25 | writing one cell changes the count of a value by −1 for the old content and +1 for the new |
| `TeekoBoard.PieceCount` | game.py:104 | the number of pieces on the board is the number of `'b'` cells plus the number of `'r'` cells |
| `Generation.DirectionsAreKingSteps` | game.py:28 | the direction list holds the eight king steps, every offset in {−1, 0, 1}² except (0, 0), each exactly once |
| `Generation.Step` | game.py:33-38 | one direction of one piece: the relocation to `(r + dr, c + dc)` with the destination written and the source cleared when that cell is on the board and empty, nothing otherwise |
| `Generation.Steps` | game.py:32-38 | the relocations of one piece along the first d directions, in list order |
| `Generation.CellSuccessors` | game.py:23-38 | the successors generated at one cell: a drop on it when it is empty (drop mode), or every king step of my piece on it (relocation mode) |
| `Generation.RowSuccessors` | game.py:22-38 | the successors from the first c cells of one row, in column order |
| `Generation.RowsSuccessors` | game.py:21-38 | the successors from the first n rows, in row order |
| `Generation.Successors` | game.py:18-39 | the list `succ(state, drop)` returns: all five rows of the nested loops of the chosen mode |
| `Generation.DropSuccessorCount` | game.py:21-26 | drop mode yields exactly as many successors as the board has empty cells |
| `Generation.DropSuccessorBoards` | game.py:20-26 | every drop successor is `((r, c),)` on an empty cell; only that cell changes, it now holds my piece; my count +1, the opponent's unchanged, one fewer empty cell |
| `Generation.DropSuccessorOrder` | game.py:21-26 | drop successors come in strictly increasing row-major order, and every empty cell yields one |
| `Generation.RelocationSuccessorBoards` | game.py:27-38 | every relocation successor is `((nr, nc), (r, c))`, moving my piece from `(r, c)` one king step to an empty in-bounds cell; only those two cells change; every count is preserved |
| `Generation.RelocationSuccessorOrder` | game.py:28-38 | relocations are ordered row-major by source, then by the position of the offset in the direction list |
| `Generation.RelocationSuccessorsComplete` | game.py:29-38 | every king step of one of my pieces into an empty cell is generated |
| `Generation.KingStepDirIndex` | game.py:28 | each of the eight king steps is the offset at position `DirIndex` of the direction list |
| `Generation.SuccessorsFacts` | game.py:18-39 | every successor is legal for its mode, and the list is sorted by generation rank |
| `Generation.SuccessorEmptyCount` | game.py:18-39 | a drop removes one empty cell; a relocation keeps the number of empty cells |
| `Generation.SuccessorMovesDistinct` | game.py:18-39 | no two successors carry the same move |
| `Terminal.ScanOrder` | game.py:156-193 | the 44 windows in the order `game_value` tests them: 10 horizontal, 10 vertical, 4 `\`, 4 `/`, then the 16 boxes |
| `Terminal.Complete` | game.py:159-189 | the test each loop of `game_value` applies: the window's first cell is not empty and its four cells are equal |
| `Terminal.FirstComplete` | game.py:157-193 | the scan stops at the first window holding four equal non-empty cells, or reports that there is none |
| `Terminal.GameValue` | game.py:155-194 | the terminal value is −1, 0 or 1 |
| `Terminal.GameValueScan` | game.py:155-194 | the value is 0 exactly when no window is complete; otherwise it is 1 exactly when the first complete window in scan order holds my piece |
| `Terminal.WinsIffScanned` | game.py:156-193 | a player has four in a row, column, diagonal or box exactly when one of the 44 scanned windows is complete with their piece |
| `Terminal.GameValueWins` | game.py:155-194 | 0 exactly when neither side has a winning shape; 1 implies I win, −1 that the opponent wins; a sole winner fixes the sign |
| `Terminal.GameValueReflection` | game.py:155-194 | with at most one winner, the terminal value is unchanged by mirroring and flipping the board |
| `Heuristic.Square` | game.py:64 | the box with corner (i, j), listed as `state[i][j]`, `state[i+1][j]`, `state[i][j+1]`, `state[i+1][j+1]` |
| `Heuristic.SquareRow` | game.py:63-65 | the boxes whose corner is in row i, by column |
| `Heuristic.Squares` | game.py:62-65 | the 16 boxes, by row of the corner and then by column |
| `Heuristic.RowsAndColumns` | game.py:50-54 | rows and columns interleaved: row 0, column 0, row 1, column 1, ... |
| `Heuristic.Lines` | game.py:48-65 | the line list in append order: rows and columns, the two diagonals, the boxes |
| `Heuristic.Column` | game.py:52 | column i holds `state[x][i]` for x = 0..4 |
| `Heuristic.Diagonal` | game.py:57 | the main diagonal holds `state[i][i]` |
| `Heuristic.AntiDiagonal` | game.py:58 | the anti-diagonal holds `state[i][4-i]` |
| `Heuristic.LinesShape` | game.py:50-65 | there are exactly 28 lines, each of four or five cells |
| `Heuristic.OpenMax` | game.py:67-72 | the maximum bounds the count on every open line and is attained on one (or is 0) |
| `Heuristic.OpenMaxExtend` | game.py:67-72 | one more line updates the maximum to `max(m, count)` when that line is open, and leaves it otherwise |
| `Heuristic.OpenMaxBound` | game.py:67-72 | both maxima are at most 4 |
| `Heuristic.Evaluate` | game.py:42-75 | `game_alg`: the terminal value when it is not 0, otherwise (my_max − opp_max) / 4 over the lines that still hold an empty cell |
| `Heuristic.EvaluateRange` | game.py:42-75 | the heuristic lies in [−1, 1] and equals `game_value` on a decided board |
| `Heuristic.EvaluateAntisymmetric` | game.py:42-75 | the opponent's evaluation of a board is the negation of mine |
| `Heuristic.EvaluateEmptyBoard` | game.py:42-75 | the empty board evaluates to exactly 0 |
| `Search.Max` | game.py:84-85 | `max(a, b)` is an upper bound of both, is one of them, and keeps `a` on a tie |
| `Search.Min` | game.py:96-97 | `min(a, b)` is a lower bound of both, is one of them, and keeps `a` on a tie |
| `Search.ChildDecreases` | game.py:83-84 | every child lowers the measure (empty cells, `Budget(depth)`), so the mutual recursion terminates |
| `Search.BestMonotone` | game.py:83-87 | the best value over a prefix of the children only improves as the prefix grows |
| `Search.MaxStep` | game.py:83-87 | one iteration of the max loop keeps its bound on the children seen so far, or ends in a cut-off at or above beta |
| `Search.MinStep` | game.py:95-99 | one iteration of the min loop keeps its bound on the children seen so far, or ends in a cut-off at or below alpha |
| `Search.MaxCutoff` | game.py:86-87 | the value returned at a beta cut-off is a fail-soft lower bound |
| `Search.MaxExhausted` | game.py:83-88 | the value returned after every child is fail-soft |
| `Search.MinCutoff` | game.py:98-99 | the value returned at an alpha cut-off is a fail-soft upper bound |
| `Search.MinExhausted` | game.py:95-100 | the value returned after every child is fail-soft |
| `Search.FullWindowExact` | game.py:112 | with the window (−inf, +inf) a fail-soft result is the exact minimax value |
| `Moves.Validate` | game.py:125-137 | the three checks, in order: the source must hold the opponent's piece, then both differences must be at most 1, then the destination must be empty; each failure has its own error |
| `Moves.Apply` | game.py:141-144 | the destination gets the piece; a relocation's source is cleared; no other cell changes |
| `Moves.GeneratedMoveApplies` | game.py:141-144 | every generated move is accepted for the same colour, and applying it reproduces that successor's board |
| `Moves.AcceptedMoveIsGenerated` | game.py:125-137 | every accepted move is among the successors of its mode |
| `Moves.ValidateIffGenerated` | game.py:123-139 | a move is accepted exactly when successor generation produces it |
| `Moves.AcceptedMoveCounts` | game.py:139-144 | an accepted drop adds one piece of the mover's colour; a relocation keeps all counts |
| `Player.FirstMaximumScoresWin` | game.py:113-119 | when some candidate wins outright, the chosen one scores 1 |
| `Player.MaxByKey` | game.py:113 | `max(util, key=util.get)` returns the first key in insertion order whose value is maximal |
| `Player.TeekoPlayer.constructor` | game.py:11-16 | the player takes the given colour, the opponent the other one, and starts from the empty board |
| `Player.TeekoPlayer.Succ` | game.py:18-39 | `succ(state, drop)` returns the successor list of the chosen mode for my piece |
| `Player.TeekoPlayer.DropSuccessors` | game.py:20-26 | the nested drop loops build the drop successors in row-major order |
| `Player.TeekoPlayer.RelocationSuccessors` | game.py:27-38 | the nested relocation loops build the relocation successors in row-major order of source |
| `Player.TeekoPlayer.PieceSteps` | game.py:32-38 | the direction loop builds one piece's relocations in direction-list order |
| `Player.TeekoPlayer.GameAlg` | game.py:42-75 | `game_alg(state)` returns the terminal value, or `(my_max - opp_max) / 4` over the open lines |
| `Player.TeekoPlayer.CollectLines` | game.py:48-65 | the collected lines are the rows and columns interleaved, then the two diagonals, then the 16 boxes |
| `Player.TeekoPlayer.OpenMaxima` | game.py:67-72 | the loop leaves the largest count of each colour over the open lines |
| `Player.TeekoPlayer.MaxValue` | game.py:78-88 | at a leaf it returns `game_alg`; otherwise, for `alpha < beta`, it is fail-soft with respect to the minimax value |
| `Player.TeekoPlayer.MinValue` | game.py:90-100 | at a leaf it returns `game_alg`; otherwise, for `alpha < beta`, it is fail-soft with respect to the minimax value |
| `Player.TeekoPlayer.ScoreSuccessors` | game.py:107-118 | `util` maps each successor's move to `game_alg` of that successor, with keys in generation order |
| `Player.TeekoPlayer.MakeMove` | game.py:103-120 | it uses drop mode iff fewer than 8 pieces are on the board; it returns nothing iff there is no successor; otherwise it returns the first move of maximal score in generation order, and that move passes validation |
| `Player.TeekoPlayer.PlacePiece` | game.py:141-144 | the board becomes the old board with the move applied |
| `Player.TeekoPlayer.OpponentMove` | game.py:123-139 | the outcome is the validation verdict for the opponent; when accepted, the board has the move applied; when rejected, the board is unchanged |

## Left out

- Input and output: `main` (game.py:201-271), `print_board` (game.py:146-153), and the
  prints `opponent_move` makes before raising. None of them affects the engine's state.
- Random colour choice (game.py:15): the colour is a constructor parameter.
- The class-level `board` (game.py:8), which all instances share in Python: each engine
  object owns its board, which starts empty.
- Exceptions: the three errors of `opponent_move` are `Outcome` values. When `util` is
  empty, `max` raises at game.py:113/119; `MakeMove` returns `None` in that case.
- Python floats: scores are exact reals, and the infinities are separate `Score` values.
  Every finite score is a multiple of 1/4, so no rounding is lost.
- List copying and aliasing: boards are values. The copies at game.py:24, 35 and 108 are
  implicit, and no input board can be mutated.
- Out-of-range coordinates, negative Python indices, and the `source_row != None` test at
  game.py:128: a move's coordinates are always in 0..4.
- Dictionary overwrite: moves are proved distinct, so re-inserting an existing `util` key at
  game.py:112/118 cannot happen. The model still keeps the first insertion position.
- Player.TeekoPlayer.MaxValue: the result is constrained only when `alpha < beta` on entry
  (and at a leaf). With an empty window, Python returns the first child's value, and no
  property is stated for it.
- Player.TeekoPlayer.MinValue: the same restriction to `alpha < beta` on entry.
