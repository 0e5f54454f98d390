# Tic-tac-toe rules and minimax, in Dafny

This project models the rules and the computer player of a 3x3 tic-tac-toe
game component (`src/Game.js`). The human plays X and the computer plays O.

- **Board evaluator.** `calculateWinner` scans the eight winning lines in a
  fixed order. `isBoardFull` checks that every square is taken. The status the
  game shows reports a win first, then a draw, then "game in progress".
- **Minimax.** The computer's move comes from an exhaustive, unpruned minimax.
  O maximises and X minimises. Terminal scores are -10 (X has won), +10 (O has
  won) and 0 (full board). The search writes each candidate mark into the
  caller's array, recurses with the other player, and then restores the
  square. Candidates are ranked in ascending square order, and the first
  strictly best one wins.
- **Turn state machine.** A click on a square is applied only to an empty
  square of a game that is still running. The computer's step plays
  minimax's square as O and gives the turn back to X.

Modules, one per part of the component:

- `Wrappers` (wrappers.dfy): `Option`, which stands for `null`/`undefined`.
- `Evaluator` (evaluator.dfy): cells, boards, the line table, the winner scan
  (a function and the loop of `calculateWinner`), fullness, the list of
  available spots, and the status.
- `Search` (search.dfy): the specification function `Minimax` and its lemmas.
  Also the in-place `MinimaxSearch` method over an `array<Cell>`, the
  selection loop `SelectBest`, and `ComputerMove`.
- `Scenarios` (scenarios.dfy): two concrete positions resolved by the general
  lemmas.
- `Game` (game.dfy): the class `TicTacToe`. It holds the component's state
  (the board array and `xNext`) and has `HandleClick` and `ComputerStep`.

The class invariant says that turns alternate. X has as many marks as O when X
is to move, and one more when O is to move. Both transitions preserve it.
`ComputerStep` preserves it because minimax only ever picks an empty square.

## Model

| member | source | states |
|---|---|---|
| `Evaluator.Other` | src/Game.js:65-71 | The recursive call is made for the other player, which always differs from the mover. |
| `Evaluator.WinnerInIsFirstHeld` | src/Game.js:35-41 | Scanning a run of lines finds a mark exactly when some line of the run holds three equal marks. The mark found is that of the first such line. |
| `Evaluator.WinnerIsFirstWonLine` | src/Game.js:24-42 | `calculateWinner` returns null exactly when none of the eight listed lines is won. Otherwise it returns the owner of the first won line in the table's order. |
| `Evaluator.WinnerInStep` | src/Game.js:35-40 | One iteration of the scan: return the current line's mark if the line holds, else continue with the rest of the table. |
| `Evaluator.WinnerUnrolled` | src/Game.js:25-41 | The winner equals the eight-way check of rows, then columns, then diagonals, with coordinates written out. |
| `Evaluator.CalculateWinner` | src/Game.js:24-42 | The loop with early return over the line table computes exactly the winner of the board in the array. |
| `Evaluator.EmptyCellsOf` | src/Game.js:49 | The available spots are exactly the indices of the null squares, in strictly ascending order. |
| `Evaluator.NoEmptyCellsIffFull` | src/Game.js:44-46 | `isBoardFull` holds if and only if the list of available spots is empty, i.e. no square is null. |
| `Evaluator.ClassifyByLines` | src/Game.js:119-135 | The status is Won exactly when some line is won. It is Draw exactly when the board is full and no line is won. It is InProgress exactly when no line is won and some square is empty. |
| `Evaluator.WinTakesPrecedence` | src/Game.js:119-132 | A board with a won line is never a draw, even when full. The reported winner owns a won line. |
| `Evaluator.FirstWonLine` | src/Game.js:35-38 | Given a won line, the scan stops at a won line no later than it, and every line before the stopping point is not won. |
| `Search.PlaceShrinksOpen` | src/Game.js:63 | Placing a mark on an empty square strictly shrinks the set of empty squares, so the search terminates. |
| `Search.Minimax` | src/Game.js:48-97 | Every score is -10, 0 or 10, because leaf scores propagate unchanged. A returned square is always empty in the input board. |
| `Search.MinimaxMovesIffNotTerminal` | src/Game.js:49-57 | Minimax returns no square exactly when the board is won by either side or full. |
| `Search.Moves` | src/Game.js:59-75 | The candidate list has one entry per available spot, in the spots' order. Each entry carries that spot and a score in {-10, 0, 10}. |
| `Search.ChildScore` | src/Game.js:62-71 | The score of a spot is the recursive score with the other player to move. It lies in {-10, 0, 10}. |
| `Search.ArgBest` | src/Game.js:77-96 | The selected candidate has the maximum score (O) or minimum score (X) of all candidates. Every earlier candidate is strictly worse, so ties keep the first. |
| `Search.MovesAt` | src/Game.js:60-75 | Candidate j is the j-th spot together with the minimax score of the board with the mover's mark placed there. |
| `Search.MinimaxPicksBest` | src/Game.js:59-96 | On a non-terminal board minimax returns an empty square, and its score is that square's recursive score. That score is the maximum (O) or minimum (X) over all empty squares. Every empty square with a lower index scores strictly worse. |
| `Search.WinningReply` | src/Game.js:51-96 | A player who can complete a line at once obtains their best score (-10 for X, +10 for O). |
| `Search.WonBoardScore` | src/Game.js:51-54 | A board with a won line scores -10 (X) or +10 (O) for the first line's owner, even when full, and yields no square. |
| `Search.DrawScore` | src/Game.js:55-56 | A full board without a won line scores 0 and yields no square. |
| `Search.SelectBest` | src/Game.js:77-94 | The loop that keeps the first strictly better score, starting from the infinite sentinel, selects exactly the candidate `ArgBest` describes. |
| `Search.MinimaxSearch` | src/Game.js:48-97 | The in-place search with place, recurse and undo leaves the array as it found it. It returns exactly the specification's score and square. |
| `Search.ComputerMove` | src/Game.js:99-101 | `computerMove` is minimax's square for O. The board is unchanged afterwards. There is a square exactly when the board is not terminal, and it is empty. |
| `Scenarios.TopRowThreatReplies` | src/Game.js:48-97 | With X on 0 and 1 and O in the centre, every O move other than square 2 scores -10. |
| `Scenarios.TopRowThreatIsBlocked` | src/Game.js:99-101 | In that position `computerMove` returns square 2. |
| `Scenarios.DoubleThreatReplies` | src/Game.js:48-97 | On the board X O X / O X O / _ _ _, every O move lets X complete a diagonal, scoring -10. |
| `Scenarios.DoubleThreatInProgress` | src/Game.js:119-135 | That board is reported as still in progress. |
| `Scenarios.DoubleThreatIsLost` | src/Game.js:48-97 | On that board minimax for O returns score -10 and, all candidates tying, square 6. |
| `Game.CountAllEmpty` | src/Game.js:6 | A fresh board holds no marks. |
| `Game.CountPlace` | src/Game.js:18-19 | Writing a mark on an empty square adds one to that mark's count and leaves the other count unchanged. |
| `Game.Copy` | src/Game.js:18 | `slice` yields a fresh array with the same squares. |
| `Game.TicTacToe.constructor` | src/Game.js:6-7 | A new game has nine empty squares and X to move. |
| `Game.TicTacToe.HandleClick` | src/Game.js:12-22 | A click changes nothing if the square is taken, the game is won or the board is full. Otherwise the new board is the old one with the mover's mark at the index, and the turn flips. Turns keep alternating. |
| `Game.TicTacToe.ComputerStep` | src/Game.js:103-117 | When O is to move on a board neither won nor full, the new board is the old one with O at minimax's square, and X moves next. The array given to minimax is left unchanged. Otherwise nothing changes. |

## Left out

- React machinery is not modelled: state hooks, effect dependency lists, refs, re-rendering and the JSX board (src/Game.js:1-10, 143-160). The state is the `TicTacToe` class instead.
- The one-second `setTimeout` before the computer moves, and its cleanup (src/Game.js:105-115), are not modelled. `ComputerStep` is the body of the timeout, run at once.
- Audio playback, the CSS import and the French status and animation strings are not modelled: they are foreign side effects and presentation. `Status` (InProgress, Won, Draw) stands for the text.
- `resetGame` (src/Game.js:138-141) is not a rules or search operation and is not modelled. The constructor gives the same initial state.
- `-Infinity` and `Infinity` in the selection loops become the integers -11 and 11. These lie beyond every score, which `Minimax`'s contract proves.
- The two selection loops (one for O with `>`, one for X with `<`) are one loop over `Better`, which chooses the comparison by player.
- `moves[bestMove]` with an empty candidate list cannot happen, because full boards return earlier. It is a precondition of `SelectBest` (`|moves| > 0`).
- Other cell values and boards of another length do not exist in the model. `Cell` has three values and `Board` is a 9-element sequence.
- The empty-board result (score 0, square 0) is not proved. Neither is the claim that the computer never loses against any sequence of human moves. Both need the full game tree, which is far too large to unfold in a proof. `Minimax` defines both, and `MinimaxPicksBest` characterises them. Only the two smaller positions in `Scenarios` are resolved.
- Determinism of the search (same board and player, same result) holds because `Minimax` is a function. There is no separate lemma for it.
