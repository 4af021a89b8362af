# Grid Clash, modelled in Dafny

Grid Clash is a React tic-tac-toe component (`src/App.js`). Two players can
share the board (duel mode), or one human plays X against a CPU that plays O
(solo mode). The component keeps four pieces of state: the nine cells, whose
turn it is, a running score per player and the mode. It derives the winner,
the draw flag and a status line from that state. The CPU moves half a second
after the human, following a fixed priority:

1. finish one of its own lines;
2. block one of X's lines;
3. take the centre;
4. take a random free corner;
5. take a random free side;
6. take the lowest free cell.

The model has four modules.

- `Grid` (`grid.dfy`) covers the cells, the eight winning lines in the
  source's order, `getWinner`, the draw test and mark counting.
- `CpuPolicy` (`cpu.dfy`) covers `findCriticalMove`, `pickRandomIndex` and
  `pickCpuMove`. These are pure functions, with lemmas for each rule of the
  priority list.
- `Game` (`game.dfy`) covers:
  - the scores;
  - the status line;
  - the class `GridClash`, whose methods are the click, reset and
    mode-change handlers, plus `CpuStep`, the body of the CPU's timer
    callback;
  - the class invariant `Valid`. It requires that X has as many marks as O,
    or one more when O is to move, and that every complete line belongs to
    the player who moved last.
- `Scenarios` (`scenarios.dfy`) replays whole rounds through the handlers:
  - the duel of the component's test file;
  - a drawn duel;
  - the solo opening, where X clicks and the CPU answers;
  - a CPU step that arrives after Next Round.

The board is an `array<Cell>` field. A move copies it into a fresh array
(`board.slice()`), writes one cell and installs the copy. No method writes an
array that is already installed. `Math.random()` becomes a parameter
`rand: real` with `0 <= rand < 1`, and the pick is
`options[floor(rand * |options|)]`, computed on exact reals.

## Model

| member | source | states |
|---|---|---|
| Grid.Other | src/App.js:127-139 | the opponent of a player is the other player: after a move the turn passes from the mover to the other player |
| Grid.EmptyBoard | src/App.js:20 | every one of the nine cells is empty |
| Grid.Lines | src/App.js:4-13 | the eight winning lines: three rows, three columns and the two diagonals, in the source's order |
| Grid.Monochrome | src/App.js:83 | a line wins when its first cell is non-empty and equals the other two |
| Grid.WinnerFrom | src/App.js:82-87 | the scan from line k finds nothing exactly when no later line is monochrome; otherwise it reports a monochrome line carrying the winner's mark, with no monochrome line before it |
| Grid.GetWinner | src/App.js:81-88 | `null` exactly when no line of WINNING_LINES has three equal non-empty cells; otherwise all three cells of the reported line hold the reported player's mark, and that line is the first monochrome line in the order of src/App.js:4-13 |
| Grid.GetWinnerUnrolled | src/App.js:4-13 | `getWinner` agrees, on every board, with eight tests of the lines written out one after another |
| Grid.Full | src/App.js:99 | `board.every(Boolean)`: no cell of the board is empty |
| Grid.FullCount | src/App.js:99 | a board is full exactly when the count of its empty cells is zero |
| Grid.IsDraw | src/App.js:99 | a draw holds exactly when no line is monochrome and the board is full |
| Grid.Count | src/App.js:25 | the count of a mark never exceeds the length, and it is zero exactly when the mark is absent |
| Grid.CountUpdate | src/App.js:128 | writing one cell changes a mark's count by what was removed and what was written |
| Grid.CountPartition | src/App.js:99 | every cell is empty, X or O, so the three counts add up to the board size |
| CpuPolicy.EmptiesOf | src/App.js:26 | the filtered list holds exactly the listed cells that are empty, is no longer than the list, and starts with the first listed cell when that one is empty |
| CpuPolicy.Marks | src/App.js:24 | the three cells of a line, in the line's order |
| CpuPolicy.Critical | src/App.js:25-27 | the loop's test: the line's cells hold exactly two marks of p, and exactly one of its indices is empty |
| CpuPolicy.CriticalIsThreat | src/App.js:24-28 | the loop's count test (two marks of p and exactly one empty square) holds exactly when the line has two marks of p and one gap; the square it returns is that gap, which is empty and on the line |
| CpuPolicy.CriticalFrom | src/App.js:23-31 | from line k on, the result is `null` exactly when no later line is a two-and-a-gap threat of p; otherwise it is the empty cell of a threat line with no threat line before it |
| CpuPolicy.FindCriticalMove | src/App.js:22-32 | `null` exactly when no line holds two of p's marks and an empty cell; otherwise the result is empty and lies on the first such line |
| CpuPolicy.CriticalMoveOnFirstThreat | src/App.js:27-29 | whichever line is the first threat of p, the critical move lies on it |
| CpuPolicy.PickRandomIndex | src/App.js:34-40 | `null` exactly for an empty list; otherwise the pick is a member of the list |
| CpuPolicy.RandomIndexReaches | src/App.js:38-39 | every position of the list is picked for some value of the random source in [0, 1) |
| CpuPolicy.PickCpuMove | src/App.js:42-79 | `null` exactly when the board is full; otherwise an empty cell |
| CpuPolicy.CornerOrSide | src/App.js:68-78 | the corner, side and fallback rules always produce a cell, and it is empty unless it is the fallback |
| CpuPolicy.GapCompletes | src/App.js:27-28 | playing p into the gap of p's two-and-a-gap line makes that line all p |
| CpuPolicy.GapBlocks | src/App.js:59-61 | playing the opponent into that gap puts its mark on the line, which stops being a threat of p |
| CpuPolicy.CriticalMoveCompletes | src/App.js:54-56 | playing p at p's critical move completes a line of p |
| CpuPolicy.CpuTakesWin | src/App.js:54-57 | when O has a two-and-a-gap line the CPU plays O's critical move, ahead of any block, and that move wins a line for O |
| CpuPolicy.CpuBlocks | src/App.js:59-62 | when O has no such line and X has one, the CPU plays the gap of X's first threat line; that line then holds an O and is no longer X's threat |
| CpuPolicy.CpuMoveClass | src/App.js:64-76 | with no threat on a non-full board the move is the centre exactly when the centre is free, a corner exactly when the centre is taken and a corner is free, and a side exactly when the centre and all corners are taken |
| CpuPolicy.CornerOrSideClass | src/App.js:68-76 | with the centre taken, the move is a corner exactly when some corner is free, and a side otherwise |
| CpuPolicy.OpenCornerListed | src/App.js:68-69 | some corner is free exactly when the filtered corner list is non-empty |
| CpuPolicy.FallbackUnreachable | src/App.js:73-78 | a non-full board whose centre and corners are all taken has a free side, so `availableSquares[0]` is never returned |
| CpuPolicy.CornerChoiceReachable | src/App.js:68-71 | under the corner rule every free corner is the move for some value of the random source |
| CpuPolicy.SideChoiceReachable | src/App.js:73-76 | under the side rule every free side is the move for some value of the random source |
| CpuPolicy.BlockExample | src/App.js:59-62 | with X on 0 and 1 the CPU blocks at 2, whatever the random source gives |
| CpuPolicy.FinishBeatsBlockExample | src/App.js:54-62 | with O on 0 and 1 and X on 3 and 4 the CPU finishes at 2 instead of blocking at 5 |
| Game.Mover | src/App.js:127 | the player to move is X exactly when `isXNext` holds |
| Game.IsCpuTurn | src/App.js:100 | it is the CPU's turn exactly in solo mode with O to move |
| Game.ClickAllowed | src/App.js:122-124 | a click is played only on a free cell of a board nobody has won, outside the CPU's turn; so the board is neither full nor drawn, and in solo mode the clicker is X |
| Game.CpuMoveDue | src/App.js:163 | the CPU's move is scheduled only in solo mode, with O to move, on a board that is not full |
| Game.Scores.Credit | src/App.js:132-135 | the winner's score rises by one and the other score is unchanged |
| Game.EmptyBoardConsistent | src/App.js:91-92 | the initial state (empty board, X to move) satisfies the game invariant |
| Game.PlayKeepsConsistent | src/App.js:126-139 | a move by the player to move, into a free cell of a board nobody has won, keeps the invariant with the turn flipped |
| Game.CpuMoveKeepsConsistent | src/App.js:163-185 | when the CPU's move is due it finds a free cell; playing O there keeps the invariant with X to move, and any win on the new board is O's |
| Game.WinnerMovedLast | src/App.js:96-97 | in a consistent state a winner can only be the player who moved last, and all complete lines belong to the same player |
| Game.FullBoardOnOsTurn | src/App.js:99 | a full board in a consistent state has five X and four O and falls on O's turn |
| Game.StatusMessage | src/App.js:104-119 | the status reads "CPU is planning its move..." exactly when the CPU's move is scheduled (src/App.js:163) |
| Game.StatusInPhase | src/App.js:104-119 | the exact text shown for a win, a draw, the CPU's turn and a player's turn, per mode |
| Game.PlayerTextNames | src/App.js:109 | "Player X …" and "Player O …" texts differ |
| Game.StatusIdentifiesPhase | src/App.js:104-119 | within one mode, two states show the same status exactly when they are in the same phase (same winner, draw, CPU thinking, or same player to move) |
| Game.CopyBoard | src/App.js:126 | `slice` returns a fresh array with the same cells |
| Game.GridClash.constructor | src/App.js:91-94 | the initial state: empty board, X to move, scores 0 and 0, duel mode, invariant established |
| Game.GridClash.Place | src/App.js:126-138 | the shared move body: only the chosen cell changes, to the given mark; a win on the new board is credited to its player and otherwise the scores stay; turn and mode untouched |
| Game.GridClash.HandleSquareClick | src/App.js:121-140 | a click on an occupied cell, after a win or on the CPU's turn changes nothing; an accepted click writes the mover's mark into that cell only, flips the turn and keeps the mode; a win it makes is the mover's, whose score rises by one while the other score stays; with no win the scores stay; the invariant is kept |
| Game.GridClash.ResetBoard | src/App.js:142-145 | empty board, X to move, scores and mode kept |
| Game.GridClash.ResetEverything | src/App.js:147-151 | empty board, X to move, both scores 0, mode kept |
| Game.GridClash.HandleModeChange | src/App.js:153-160 | choosing the current mode changes nothing; another mode is set with an empty board and X to move; scores kept |
| Game.GridClash.CpuStep | src/App.js:162-186 | when the effect's guard holds, O goes into the free cell `pickCpuMove` chooses and X is to move; a win that move makes is O's and raises O's score by one, X's score staying; otherwise nothing changes; the invariant is kept |
| Scenarios.PlayClick | src/App.js:121-140 | a click on a free cell of a board nobody has won is taken: the board becomes the replayed board one click further, the turn alternates, and a win on the new board is credited to its player |
| Scenarios.PlayDuel | src/App.js:121-140 | clicks that each land on a free cell of a board nobody has won are all taken, from an empty board: the board ends as replayed, the turn alternates, and the scores change only by a credit for a win on the final board |
| Scenarios.TopRowPlayable | projects/grid-clash/src/App.test.js:14-16 | the clicks 0, 3, 1, 4, 2 are all accepted, and the last one wins the top row for X |
| Scenarios.TopRowStatus | projects/grid-clash/src/App.test.js:18 | after those clicks the status reads "Player X wins!" |
| Scenarios.DuelTopRow | projects/grid-clash/src/App.test.js:11-25 | playing the test's clicks gives "Player X wins!", a score of 1 for X and 0 for O, and the winning line (0, 1, 2) |
| Scenarios.DrawPlayable | src/App.js:99 | the clicks 0, 1, 2, 4, 3, 5, 7, 6, 8 are all accepted and fill the board without a line |
| Scenarios.DrawStatus | src/App.js:111-112 | that full board is a draw and the status reads "No moves left. It is a draw." |
| Scenarios.DrawnDuel | src/App.js:99 | the drawn duel shows the draw message, leaves both scores at 0 and has O to move |
| Scenarios.SoloOpening | src/App.js:64-66 | after X's opening at 0 there is no winner and no threat, and the centre is free |
| Scenarios.SoloReplied | src/App.js:117-118 | after O's reply at the centre the status in solo mode reads "You to move" |
| Scenarios.SoloOpeningExchange | projects/grid-clash/src/App.test.js:27-45 | in solo mode, after X clicks 0 the status reads "CPU is planning its move..."; the CPU step then puts O in the centre, whatever the random source gives, and the status reads "You to move" |
| Scenarios.StaleCpuStep | src/App.js:142-145 | a CPU step arriving after Next Round finds X to move and leaves the empty board and the scores alone |

## Left out

- Rendering is left out because it is presentation only. This covers the
  JSX, the CSS import, the aria labels, the button classes, the tips list,
  the heading and the highlighting of the winning squares (src/App.js:2,
  98, 191-279).
- The score labels "You (X)" / "CPU (O)" / "Player X" / "Player O"
  (src/App.js:101-102) are a plain choice of text by mode and are not
  modelled.
- React's mechanics are left out:
  - `useState`, the functional updaters and `useMemo` (src/App.js:91-96);
  - re-rendering.

  Each handler is a method that updates the fields atomically. The winner,
  draw flag and status are recomputed from the fields.
- Timer scheduling is left out: `setTimeout`, the 500 ms delay, the
  effect's dependency list and `clearTimeout` on cleanup (src/App.js:162,
  167, 186-189). Only the callback body is modelled, as `CpuStep`, and it
  re-checks the effect's guard (src/App.js:163) on the current state.
  - A timer that the code would cancel meets a state in which the guard
    fails, so `CpuStep` does nothing. This holds after a reset or mode
    change, because X is then to move.
  - The callback's own closure over the board it was scheduled with is not
    modelled.
- The `move === null` branch of the callback (src/App.js:169-172) is
  unreachable: the guard rules out a full board, and `pickCpuMove` returns
  `null` only on a full board. The model proves this and marks the branch
  with `assert false`, so it writes no code for it.
- CpuPolicy.PickRandomIndex: the product `rand * |options|` is exact real
  arithmetic, not the IEEE double product of src/App.js:38. Where the
  double product rounds up to the next integer, one value of `rand` picks
  the neighbouring candidate in the model. Membership and reachability of
  every candidate are unaffected.
- `Math.random()` (src/App.js:38) is replaced by the parameter `rand`.
  Uniformity of the random choice is not modelled. The model proves that
  the pick is a member of the candidates, and that every candidate is the
  pick for some value of `rand`.
- The component's test file lives under `projects/grid-clash/src/`, while
  the component itself is `src/App.js`. The scenarios replay its two game
  tests. Its rendering test (heading and buttons) is presentation and is
  not modelled.
- A CPU move that Next Round cancels leaves an empty board, not the
  human's last move: `resetBoard` (src/App.js:142-145) empties the board
  and gives X the move, so the step that would have followed finds nothing
  to do. `Scenarios.StaleCpuStep` states this.
