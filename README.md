# Tic-tac-toe game engine

A Dafny model of the game engine in a browser tic-tac-toe page. The page keeps
three pieces of module-level state: the nine-cell board `gameState`, the player
to move `currentPlayer`, and the flag `gameActive`. A click on a cell is ignored
when the cell is taken or the game is over. Otherwise the current player's mark
is written into the cell. The engine then scans the eight winning lines in
table order and stops at the first one whose three cells are non-empty and
equal. A win or a full board ends the game; any other result passes the turn.
Restart puts everything back as it was on page load.

Files:

- `rules.dfy` (module `Rules`): cells, players, the board (a sequence of exactly
  nine cells), the winning-line table `WinningConditions`, and the line test
  `LineWinner`. It also holds the pure scan `Evaluate` from a board to
  `InProgress | Won(winner, line) | Draw`. A geometric description of straight
  lines (`Straight`) is proved to pick out exactly the table's eight lines.
- `engine.dfy` (module `Engine`): the engine state as a value (`Snapshot`) and
  one click as a pure transition (`Click`, `OutcomeOf`, with `Run` for a
  sequence of clicks). It holds the lemmas about those transitions, including
  an invariant of every reachable state: the game is running exactly when the
  board is in progress, and X has made as many moves as O, or one more,
  according to whose turn it is. The class `TicTacToe` has one method per
  handler of the page, over an `array<Cell>` field and the two variables.
  `HandleCellClick`'s postcondition ties the new object state to `Click` of
  the old state. Each helper handler's postcondition gives the new state in
  terms of the old one: `HandleCellPlayed` as an update of the old array,
  `HandleResultValidation` as `Evaluate` of the board together with the new
  flag and player, `HandlePlayerChange` as `Other` of the old player, and
  `HandleRestartGame` as `Initial`.
- `scenarios.dfy` (module `Scenarios`): concrete games played from the initial
  state: a top-row win, a click on an occupied cell, and a full-board draw.

## Model

| member | source | states |
|---|---|---|
| `Rules.Other` | script.js:115 | the player after `p` is never `p` (X becomes O, O becomes X) |
| `Rules.LineWinner` | script.js:79-86 | the skip-if-empty, then all-equal test of one line yields `Some(p)` exactly when all three cells of the line carry `p`'s mark |
| `Rules.FirstWinFrom` | script.js:73-87 | the scan from line `k` returns the index of a complete line, and no line from `k` up to that index (or to the end, when it finds none) is complete |
| `Rules.Evaluate` | script.js:69-105 | a reported win names a line of the table that the winner owns; the board is won exactly when some table line is complete; it is a draw exactly when no line is complete and no cell is empty; it is in progress exactly when no line is complete and some cell is empty |
| `Rules.EvaluateFirstMatch` | script.js:73-87 | when line `k` is the first complete line in table order, `Evaluate` reports exactly that line and its owner, whatever later lines are also complete |
| `Rules.WinBeatsDraw` | script.js:89-104 | any complete line makes the board won and never a draw, even when the board is full; the reported line is the first complete one and sits no later in the table than the given one |
| `Rules.WinningConditionsAreStraightLines` | script.js:20-29 | the table holds exactly the straight lines of the 3-by-3 grid, each once: rows first, then columns, then the two diagonals |
| `Engine.Accepts` | script.js:43-45 | the guard of a click: the cell is empty and the game is running. It has no `ensures` of its own; `RejectedIsNoop` and `AcceptedMarksOneCell` state what follows from it |
| `Engine.Click` | script.js:35-109 | one whole click, rejected or accepted, as a transition on the engine state. It has no `ensures` of its own; its properties are carried by `RejectedIsNoop`, `AcceptedMarksOneCell`, `WinEndsGame`, `WinnerIsMover`, `DrawEndsGame`, `MovePassesTurn` and `ClickKeepsInvariant` |
| `Engine.OutcomeOf` | script.js:43-105 | what a click reports: rejected, or the status of the board after the move. It has no `ensures` of its own; `RejectedIsNoop`, `WinEndsGame`, `WinnerIsMover`, `DrawEndsGame` and `MovePassesTurn` state its value in each case |
| `Engine.InitialState` | script.js:7-9 | the initial state has nine empty cells and no filled cell, is in progress, and satisfies the invariant |
| `Engine.RejectedIsNoop` | script.js:43-45 | a click on an occupied cell or in a finished game changes neither the board, nor the player to move, nor the running flag, and is reported as rejected |
| `Engine.AcceptedMarksOneCell` | script.js:59 | an accepted click writes the mover's mark into exactly the chosen cell, leaves the other eight cells alone, and raises the number of filled cells by one |
| `Engine.MarksAreKept` | script.js:43-59 | a filled cell keeps its mark through any click |
| `Engine.WinEndsGame` | script.js:89-96 | from any state, a winning click stops the game and keeps the turn, and the reported line is a table line |
| `Engine.WinnerIsMover` | script.js:89-91 | on a state where the game is running exactly when the board is in progress, the reported winner of a winning click is the player who just moved |
| `Engine.DrawEndsGame` | script.js:99-104 | a click that completes no line and leaves no empty cell reports a draw, stops the game and keeps the turn |
| `Engine.MovePassesTurn` | script.js:107-108 | a click that completes no line and leaves an empty cell reports in-progress, keeps the game running and passes the turn to the other player |
| `Engine.ClickKeepsInvariant` | script.js:35-50 | every click, accepted or rejected, keeps the invariant: running exactly when in progress, and the X and O mark counts matching whose turn it is |
| `Engine.RunKeepsInvariant` | script.js:35-50 | every state reached by a sequence of clicks from a state satisfying the invariant satisfies it too |
| `Engine.RunFilled` | script.js:59 | after a sequence of clicks, the number of filled cells has grown by exactly the number of accepted clicks |
| `Engine.RunAppend` | script.js:35-50 | running two sequences of clicks one after the other is running their concatenation |
| `Engine.ValidMovesFillCells` | script.js:43-59 | from the initial state, N clicks that are all accepted leave exactly N filled cells, in a state satisfying the invariant |
| `Engine.TicTacToe.constructor` | script.js:7-9 | a fresh engine is in the initial state: nine empty cells, X to move, game running; that state satisfies the invariant |
| `Engine.TicTacToe.HandleCellClick` | script.js:35-50 | the new state is `Click` of the old one at the clicked cell; the result is rejected for an occupied cell or a finished game, and otherwise the status of the new board; a state satisfying the invariant keeps it |
| `Engine.TicTacToe.HandleCellPlayed` | script.js:57-64 | the array afterwards is the old board with the chosen cell set to the current player's mark, still nine cells long |
| `Engine.TicTacToe.HandleResultValidation` | script.js:69-109 | the loop over the table returns `Evaluate` of the board; a win or draw clears the running flag and keeps the player, anything else keeps the flag and switches the player; the board array is unchanged |
| `Engine.TicTacToe.HandlePlayerChange` | script.js:114-117 | the player to move becomes the other player |
| `Engine.TicTacToe.HandleRestartGame` | script.js:122-133 | from any state, the engine returns to the initial state on a freshly allocated nine-cell board, and that state satisfies the invariant |
| `Scenarios.TopRowWin` | script.js:35-109 | X at 0, O at 3, X at 1, O at 4, X at 2 ends with X winning on line (0, 1, 2) and the game stopped; a later click on cell 5, which is still free, is rejected because the game is over and changes nothing |
| `Scenarios.OccupiedCellIgnored` | script.js:43-45 | a second click on cell 0 after X took it is rejected: cell 0 keeps X's mark and O is still to move |
| `Scenarios.FullBoardDraw` | script.js:99-104 | X 0, O 1, X 2, O 4, X 3, O 5, X 7, O 6, X 8 fills the board without a line: the last move reports a draw and the game stops with X recorded |

## Left out

- DOM lookups and rendering are not modelled. This covers the status message, the cell contents and CSS classes, and the highlighting of the winning cells (script.js:2-4, 17, 62-63, 90, 93-95, 102, 116, 126-132). The model returns the winning line as data instead.
- The message builders (script.js:12-14) are presentation text only.
- Event-listener wiring (script.js:136-137) is host event dispatch with no logic.
- Reading the cell index with `parseInt` of a DOM attribute (script.js:40) is not modelled. The index is a board position `0..8` by its type, so `NaN` and out-of-range indices are outside the model.
- The source's handlers return nothing. The model's `HandleCellClick` returns what happened as data: `Rejected`, or `Accepted(status)`.
- The winner in `Won(winner, line)` is the owner of the winning line. The source's win message names `currentPlayer` instead. `Engine.WinnerIsMover` proves that the two agree on every state where the game is running exactly when the board is in progress. That takes in every state reachable from the initial one (`Engine.RunKeepsInvariant`).
- The engine stores no status, only `gameActive`, as the source does. An earlier win or draw is not recorded after the click that produced it. A rejected click therefore reports `Rejected` rather than repeating the earlier status.
- Restart allocates a new array, as the source assigns a new array literal. Aliasing of the old array by other code is outside the model.
