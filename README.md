# Gomoku bot core in Dafny

This project models the playing engine of a 15×15 Gomoku (five-in-a-row) bot:

- the board and its text rendering (`Board`, state.dfy);
- the line scans shared by the win detector and the evaluator (`Lines`, lines.dfy);
- the five-in-a-row detector (`WinCheck`, wincheck.dfy);
- the position evaluator, which run-length-encodes every line and scores each stone run from a fixed table (`Evaluation`, eval.dfy);
- the candidate-move generator (`MoveGeneration`, movegen.dfy);
- the alpha-beta search and the choice of the bot's move (`Search`, search.dfy).

The game state is a class. Its `xTurn` field and its 15×15 `array2` board are updated in place, the way the program does it. Each imperative routine is a method proved against a specification function on a value copy of the board (`Grid`, a sequence of rows):

| routine | specification |
|---|---|
| win check | `AnyLineHasFive`, shown equal to the geometric `HasFiveInARow` |
| evaluator | `Eval`, a sum of `LineScore` over the scanned lines |
| move generator | `Candidates`, a functional replay of the stack expansion |
| search | `Minimax` / `Best`, plain depth-limited minimax |

Scores are integers scaled by 10:

- 0.1 becomes 1;
- `INF` = 10^8 becomes `Inf` = 10^9;
- `INF/10` becomes `FourOnTurn` = 10^8;
- the search cut-off 1000.0 becomes `Cutoff` = 10000.

The search's ±infinity is `Infinity` = 10^13. It lies above `MaxEval`, a proved bound on every evaluation.

The methods that search in place take a ghost `Grid` that the board shows, plus `requires depth <= EmptyCount(g)`. Under that condition every nested move generation sees a board with an empty cell. So every candidate it returns is empty, and undoing a move restores the board exactly. The bot's top-level call needs `Depth + 1 = 3` empty cells.

Where the design and the code differ, the model follows the code:

- The evaluator takes the side to move from the state's `xTurn`.
- On a full board the generator falls back to all 225 cells, occupied or not. `CandidatesFallback` states this; `CandidatesEmpty` holds only while an empty cell exists.
- The expansion does not reach every empty cell within distance 2 of a stone. A cell marked visited as a distance-2 leaf blocks a later expansion through it, so the result depends on stack order. The model replays that order exactly. What is proved is what the code guarantees:
  - every empty cell adjacent to a stone is found;
  - every found cell is within distance 2 of some stone.
- Both the win check and the evaluator scan the diagonals from the bottom corner for i in 1..13 only. The two one-cell corner diagonals are skipped; `DiagonalCoverage` states exactly which cells that leaves out, and `ScannedLinesFindEveryFive` shows no five-in-a-row is missed.

## Model

| member | source | states |
|---|---|---|
| Board.GameState.constructor | src/state.rs:17-22 | the new state has the requested side to move and a board of 225 `Empty` cells |
| Board.GameState.Format | src/state.rs:25-43 | the text is `Render` of the board (it does not depend on `xTurn`) and is 930 characters long; it requires that no cell holds the `None` sentinel |
| Board.RenderLayout | src/state.rs:29-40 | each of the 15 rows is 15 cells `"| t "` followed by `"|\n"`, where `t` is `' '`, `'X'` or `'O'` for `Empty`, `X`, `O` |
| Board.RenderInjective | src/state.rs:29-40 | two sentinel-free boards with the same rendering are the same board |
| Board.PlaceStoneCount | src/bot.rs:76-80 | putting a stone on an empty cell uses up exactly one empty cell |
| Board.EmptyCountPositive | src/bot.rs:52-58 | the count of empty cells is positive exactly when the board has an empty cell |
| Lines.LineMembership | src/eval.rs:82-124 | a cell lies on row i, column i, or the i-th diagonal of each of the four diagonal scans exactly when its coordinates satisfy that line's equation |
| Lines.DiagonalCoverage | src/eval.rs:94-124 | every cell but the corner (14,14) lies on a scanned anti-diagonal, and every cell but (0,14) lies on a scanned diagonal |
| Lines.RowAndColumn | src/eval.rs:84-89 | the two collected lines are row i and column i of the board |
| Lines.DiagonalsFromTop | src/eval.rs:96-105 | the two collected lines are the i-th diagonals through the left edge, read away from it |
| Lines.DiagonalsFromBottom | src/eval.rs:112-121 | the two collected lines are the i-th diagonals through the right edge, read away from it |
| WinCheck.RunEndingAtLeast | src/wincheck.rs:10-21 | the run counter at position e is at least m exactly when the m cells ending at e all hold the same tile |
| WinCheck.LineHasFive | src/wincheck.rs:3-24 | the result is true exactly when five consecutive cells hold the same stone (`X` or `O`, never `Empty`), including a run that ends the line; a line shorter than 5 gives false |
| WinCheck.RowsAndColumnsWin | src/wincheck.rs:28-41 | true exactly when some row or column holds five in a row |
| WinCheck.TopDiagonalsWin | src/wincheck.rs:44-62 | true exactly when some diagonal scanned from the left edge holds five in a row |
| WinCheck.BottomDiagonalsWin | src/wincheck.rs:65-83 | true exactly when some diagonal scanned from the right edge, i in 1..13, holds five in a row |
| WinCheck.ScannedLinesFindEveryFive | src/wincheck.rs:26-85 | some scanned line holds five in a row exactly when five equal stones stand in a row on the board in any of the four directions |
| WinCheck.CheckWin | src/wincheck.rs:26-86 | the result is true exactly when five equal stones stand in a row anywhere on the board; the state is not modified |
| WinCheck.NoWinOnEmptyBoard | src/wincheck.rs:26-85 | the empty board has no win |
| Evaluation.RleShape | src/eval.rs:8-23 | the runs have positive lengths, adjacent runs differ in tile, the lengths sum to the line length, and expanding the runs gives back the line |
| Evaluation.RleSwap | src/eval.rs:14-22 | encoding the colour-swapped line gives the colour-swapped runs |
| Evaluation.EncodeRuns | src/eval.rs:8-23 | the built run list is `(None,0)`, the runs of the line, `(None,1)` |
| Evaluation.RunValueCases | src/eval.rs:28-74 | `Empty` runs and runs with fewer than 5 cells of room score 0; `O` runs score in [0, Inf] and `X` runs in [-Inf, 0]; a four whose owner is to move scores ±FourOnTurn, whatever its openness; five or more scores ±Inf |
| Evaluation.RunValueSwap | src/eval.rs:45-74 | swapping the colours of a run and its neighbours and flipping the side to move negates the run's score |
| Evaluation.ScoreRuns | src/eval.rs:25-76 | the loop total is the sum of the run scores over the inner runs |
| Evaluation.LineScoreBound | src/eval.rs:25-76 | a line of at most 15 cells scores within ±15·Inf |
| Evaluation.EvalLine | src/eval.rs:4-77 | the result is `LineScore` of the line, and 0 for a line shorter than 5 |
| Evaluation.LineScoreEmpty | src/eval.rs:28-30 | a line of empty cells scores 0 |
| Evaluation.LineScoreSwap | src/eval.rs:4-77 | swapping `X` and `O` on a line and flipping the side to move negates its score |
| Evaluation.ScoreRowsAndColumns | src/eval.rs:83-92 | the loop total is the score summed over all rows and columns |
| Evaluation.ScoreTopDiagonals | src/eval.rs:95-108 | the loop total is the score summed over the 30 diagonals scanned from the left edge |
| Evaluation.ScoreBottomDiagonals | src/eval.rs:111-124 | the loop total is the score summed over the 26 diagonals scanned from the right edge for i in 1..13 |
| Evaluation.Evaluate | src/eval.rs:79-127 | the result is `Eval` of the board with the state's side to move |
| Evaluation.EvalEmptyBoard | src/eval.rs:79-127 | the empty board evaluates to 0 for either side to move |
| Evaluation.EvalSwap | src/eval.rs:79-127 | swapping every `X` and `O` and flipping the side to move negates the evaluation |
| Evaluation.EvalBound | src/eval.rs:79-127 | every sentinel-free board evaluates within ±MaxEval |
| MoveGeneration.NearStoneStep | src/bot.rs:36-48 | one step from a cell within distance k of a stone is within distance k+1 |
| MoveGeneration.SeededInv | src/bot.rs:22-31 | the seeded state satisfies the expansion invariant (every stone marked visited and on the stack at distance 0, every stack entry sound) and has collected nothing |
| MoveGeneration.ExploreCollects | src/bot.rs:33-51 | the loop keeps its invariant to the end: the result has no repeats, holds only empty cells within distance 2 of a stone, and contains every empty cell adjacent to a stone |
| MoveGeneration.FoundNonEmpty | src/bot.rs:33-58 | the expansion finds something exactly when the board has both a stone and an empty cell |
| MoveGeneration.CandidatesDistinct | src/bot.rs:22-58 | the generated moves are on the board and never repeat |
| MoveGeneration.CandidatesEmpty | src/bot.rs:39-58 | while the board has an empty cell, every generated move is an empty cell |
| MoveGeneration.CandidatesFallback | src/bot.rs:52-58 | a board with no stone, or with no empty cell, yields all 225 cells in row order; the list is never empty |
| MoveGeneration.CandidatesNearStones | src/bot.rs:16-49 | every empty cell next to a stone is generated, and on a board with stones and empties every generated cell is within distance 2 of a stone |
| MoveGeneration.Seed | src/bot.rs:22-31 | the seeding loops build the stack and visited marks of the functional seeding |
| MoveGeneration.SeedRow | src/bot.rs:25-30 | one row of the seeding loops matches the functional seeding of that row |
| MoveGeneration.VisitOne | src/bot.rs:37-49 | one direction of the inner loop updates marks, stack and result as `Visit` does |
| MoveGeneration.Expand | src/bot.rs:35-50 | one pop and its eight directions update the state as `VisitFrom` does |
| MoveGeneration.ExpandAll | src/bot.rs:33-51 | the `while` loop yields the result of the functional expansion |
| MoveGeneration.ListAllCells | src/bot.rs:53-57 | the fallback list is every cell in row order |
| MoveGeneration.Generate | src/bot.rs:21-58 | the generated list is `Candidates` of the board |
| MoveGeneration.MoveGen | src/bot.rs:21-62 | the list is `Candidates` of the board: no repeats, all on the board, and all empty while an empty cell exists |
| Search.MinimaxBound | src/bot.rs:64-105 | minimax on a sentinel-free board stays within ±MaxEval, so strictly inside the ±Infinity window |
| Search.BestBound | src/bot.rs:72-104 | a non-empty fold over replies stays within ±MaxEval |
| Search.BestIsExtreme | src/bot.rs:72-104 | the fold is at most (for X) or at least (for O) every reply, and equals one of them unless the list is empty |
| Search.BestOrderFree | src/bot.rs:59-104 | the minimax value does not depend on the order of the candidate list, so the shuffle cannot change it |
| Search.BestPrefix | src/bot.rs:82-84 | folding over a prefix of the moves is no better for the mover than folding over all of them, which justifies the break |
| Search.AlphaBeta | src/bot.rs:64-105 | the board and side to move are restored; the value equals minimax inside the window and stays on the same side of it outside; with the full window it is exactly minimax; at depth 0 or past the cut-off it is the evaluation |
| Search.MaxNode | src/bot.rs:72-87 | O's loop returns the fold of the replies inside the window, or a value on the same side of it, and restores the board |
| Search.MinNode | src/bot.rs:88-104 | X's loop returns the fold of the replies inside the window, or a value on the same side of it, and restores the board |
| Search.Probe | src/bot.rs:76-80 | playing a move, searching and taking it back restores the board and side to move and returns the reply's minimax value within the window |
| Search.Consider | src/bot.rs:112-123 | one step of the root loop keeps the best move so far: the first candidate with the strictly best reply value |
| Search.BotMove | src/bot.rs:107-143 | the board and side to move are restored; the move is an empty cell; it is the first generated candidate whose value at depth 3 is minimal (X to move) or maximal (O to move) |

## Left out

- The shuffle of the candidate list uses the UI library's random generator, so it is not modelled. The model searches candidates in generation order; `BestOrderFree` shows that order does not change any minimax value. Which equal-valued move the bot picks does depend on it.
- The `println!` of the chosen value in `bot_move` is an output side channel only, so it is left out.
- `f32` arithmetic is not modelled. Every score is a sum of table constants, modelled exactly as integers scaled by 10. IEEE infinities become the sentinel `Infinity`, which is larger than any reachable score.
- src/main.rs (window, input, drawing) is not part of this model.
- Search.AlphaBeta: requires `depth <= EmptyCount(g)`. Without it a full board makes the generator return occupied cells, and make/unmake would overwrite stones with `Empty`. The program does not guard against this, and the model does not describe that corrupting path.
- Search.BotMove: requires three empty cells for the same reason. Its value guarantee assumes the full window, which is how the program calls it.
- The missed cell in the distance-2 expansion (stones at (5,5) and (8,4) never reach (7,7)) is reproduced by the model. No lemma exhibits that concrete board.
