# Tic-Tac-Toe game model, verified

This project models the engine of a desktop Tic-Tac-Toe game, which is the
class `Model` in `src/Model.java`. The engine:

- keeps the 3x3 board, whose turn it is, the number of moves played, the
  status message and whether the game is over;
- applies a player's move;
- detects a win through the cell just played, or a tie;
- picks the computer opponent's move at one of three difficulties. Easy picks
  a random empty cell. Medium takes a win, else blocks, else picks at random.
  Hard runs a depth-2 minimax.

The project has four modules.

- `Board` (`board.dfy`) treats the board as a value `Grid`: nine characters
  in row-major order, so cell (r, c) is at index 3r + c. It holds the
  read-only queries over a board:
  - `CheckWinner`, the local line test through one cell;
  - `Evaluate`, the static score that `evaluateBoard` computes;
  - the count of occupied cells;
  - the row-major list of empty cells.
- `Strategy` (`strategy.dfy`) states as functions what each selector
  chooses, and holds the lemmas about those choices:
  - `RandomChoice` for the easy move;
  - `MediumChoice` for the medium move;
  - `Search` for `minimax`. It uses the mutually recursive `ScanFrom`,
    `Step` and `ChildScore`, which follow the search's row-major loop.
- `TicTacToe` (`model.dfy`) holds the class `Model`:
  - the board is an `array<char>` of length 9 that the methods write in
    place;
  - the fields are those of the Java class;
  - each method is proved against the functions above;
  - `Valid()` is the game invariant that `PlayMove` and `ResetModel` keep:
    the move count equals the number of occupied cells, and the game is over
    exactly when a line is won or the board is full;
  - the calls into the view are recorded in a ghost log `events`.
- `Scenarios` (`scenarios.dfy`) plays two complete games through the class:
  a win on the top row, followed by a refused move, and a full board with no
  line, which is a tie.

`Math.random()` becomes a parameter `u` with 0 <= u < 1. The random index
is then floor(u * n), as in the cast `(int)(Math.random() * n)`.

Three behaviours of the code matter for what the model states:

- minimax's terminal test reads the game's own fields, not the board of
  the node being searched (src/Model.java:205, 245-247). Those fields are
  the same at every node, so the search never stops at a win inside it
  (see Findings).
- evaluateBoard scores the first won line in its scan order, not any won
  line (src/Model.java:284-303). The scan order is:
  - row 0, column 0, row 1, column 1, row 2, column 2;
  - then the main diagonal;
  - then the anti-diagonal.
- view.update receives the status message from before the move
  (src/Model.java:76), because it is called before `message` changes.

## Model

| member | source | states |
|---|---|---|
| Board.CheckWinner | src/Model.java:256-275 | the line test through one cell: row, column, main diagonal only when row == col, anti-diagonal only when row + col == 2. It has no ensures of its own; its meaning is stated by CheckWinnerIsLineThroughCell and LocalCheckAgreesWithFullScan |
| Board.FirstHolding | src/Model.java:284-303 | the scan of evaluateBoard over the eight lines in its order. Its properties are stated by FirstHoldingIsFirst and FirstHoldingIsUnique |
| Board.CheckWinnerIsLineThroughCell | src/Model.java:256-275 | checkWinner(row, col) holds exactly when one of the eight lines that passes through (row, col) holds three copies of that cell's symbol |
| Board.LocalCheckAgreesWithFullScan | src/Model.java:78-82 | on a board with no won line, after one empty cell is marked, the local test at that cell holds exactly when some line on the whole board is won, so playMove misses no win and reports no false one |
| Board.Evaluate | src/Model.java:283-307 | the static score is always 10, -10 or 0 |
| Board.EvaluateMeaning | src/Model.java:283-307 | the score is 0 iff no line is won, 10 iff the first won line in scan order is 'O''s, and -10 iff a line is won and the first one is not 'O''s |
| Board.FirstHoldingIsFirst | src/Model.java:284-303 | the scan finds the earliest won line in its order, and finds none exactly when no line is won |
| Board.MarkAddsOne | src/Model.java:72-74 | marking one empty cell adds exactly one occupied cell, so the move count keeps equal to the number of occupied cells |
| Board.EmptyGridIsClear | src/Model.java:41-45 | the cleared board has no occupied cell and no won line |
| Board.FullBoard | src/Model.java:82 | the count of occupied cells is nine exactly when no cell is empty |
| Board.EmptyCellsBefore | src/Model.java:132-140 | the list holds exactly the empty cells, each in range, in strictly increasing row-major order, and its length is the number of empty cells scanned |
| Board.EmptyCells | src/Model.java:132-140 | the list of empty cells has 9 minus the number of occupied cells entries |
| Board.RandomIndex | src/Model.java:146 | floor(u * n) is a valid index below n for every draw u in [0, 1) |
| Strategy.RandomChoice | src/Model.java:131-148 | the random move is none iff no cell is empty, and otherwise an empty cell in range |
| Strategy.FirstCompleting | src/Model.java:156-180 | the row-major try-and-check scan of makeMediumMove for one symbol. Its properties are stated by FirstCompletingIsFirst and FirstCompletingIsUnique |
| Strategy.MediumChoice | src/Model.java:155-183 | win, else block, else random. Its properties are stated by MediumTakesFirstWin, MediumTakesFirstBlock, MediumFallsBackToRandom and MediumChoiceIsBlank |
| Strategy.Search | src/Model.java:202-238 | minimax(depth, player): the static score at a terminal node or at depth 0, otherwise the row-major scan from the sentinel. Its properties are stated by SearchChoosesFirstBest and HardChoiceIsBlank |
| Strategy.ScanFrom | src/Model.java:210-235 | the row-major loop of minimax from a cell on, carrying the best choice so far; ScanFromChooses proves it keeps that choice the earliest best |
| Strategy.Step | src/Model.java:212-233 | one turn of that loop: an empty cell whose score is strictly better (> for 'O', < for 'X') becomes the best; StepKeepsChosen proves it keeps the loop's invariant |
| Strategy.ChildScore | src/Model.java:213-224 | the score of playing in one cell and letting the opponent search one ply less |
| Strategy.FirstCompletingIsFirst | src/Model.java:156-167 | the scan returns the earliest empty cell, in row-major order, where the symbol completes a line, and none exactly when there is no such cell |
| Strategy.MediumTakesFirstWin | src/Model.java:156-167 | when 'O' can complete a line, the medium move is the first such cell |
| Strategy.MediumTakesFirstBlock | src/Model.java:169-180 | when 'O' cannot, but 'X' could complete a line, the medium move is the first such cell |
| Strategy.MediumFallsBackToRandom | src/Model.java:182 | when neither can complete a line, the medium move is the random move |
| Strategy.MediumChoiceIsBlank | src/Model.java:155-183 | the medium move is always an empty cell in range, and is none only when no cell is empty |
| Strategy.SearchChoosesFirstBest | src/Model.java:210-237 | with depth left and the game open, minimax returns the earliest empty cell whose score no other empty cell beats (strict > for 'O', strict < for 'X', so ties keep the earlier cell). It returns (sentinel, -1, -1) exactly when no empty cell beats Integer.MIN_VALUE / Integer.MAX_VALUE |
| Strategy.HardChoiceIsBlank | src/Model.java:190-193 | on an open game with an empty cell, minimax(2, 'O') chooses an empty cell in range |
| Strategy.HardMissesWin | src/Model.java:205 | on the open position XX_ / OO_ / X__, the search of the code plays (0, 2) with score 0, although (1, 2) completes a line for 'O' |
| Strategy.IntendedHardTakesFirstWin | src/Model.java:205 | when the terminal test reads each node's own board and 'O' can complete a line, the hard move scores 10 and is the first completing cell, the same cell the medium move plays |
| Strategy.IntendedHardTakesMissedWin | src/Model.java:205 | with that terminal test, the hard move on XX_ / OO_ / X__ is the win (1, 2) |
| TicTacToe.Model.constructor | src/Model.java:18-21 | a new model is a valid game: empty board, player 1 to move, no moves, game open, no view |
| TicTacToe.Model.RegisterView | src/Model.java:28-30 | a view is registered afterwards |
| TicTacToe.Model.ResetModel | src/Model.java:35-50 | afterwards all nine cells are ' ', movesCount is 0, currentPlayer is 1, the game is open and the message is "Player X's turn". The game is valid, the difficulty is kept, and a reset event is logged only when a view is registered |
| TicTacToe.Model.SetAiDifficulty | src/Model.java:57-59 | the difficulty becomes the given value |
| TicTacToe.Model.PlayMove | src/Model.java:67-96 | an illegal move (game over, out of range, occupied cell) changes nothing. A legal move writes the player's symbol ('X' for 1, 'O' for 2) in that cell alone and adds one to movesCount. Then a line through the cell wins, even on the ninth move. Otherwise a ninth move is a tie. Otherwise the turn passes and the game stays open. The view events are logged in order, validity is kept, and the computer is to answer exactly when it is now player 2's turn with a difficulty above 0 |
| TicTacToe.Model.ChooseAiMove | src/Model.java:105-112 | difficulty 1, 2 and 3 give the random, medium and hard move; any other difficulty gives (0, 0). The board is left as it was |
| TicTacToe.Model.MakeRandomMove | src/Model.java:131-148 | the result is the floor(u * n)-th of the n empty cells in row-major order, or none when there are none |
| TicTacToe.Model.MakeMediumMove | src/Model.java:155-183 | the result is the medium choice, and the board is left exactly as it was found |
| TicTacToe.Model.FindCompleting | src/Model.java:156-167 | the result is the first empty cell where the symbol completes a line, and every cell tried is restored |
| TicTacToe.Model.MakeHardMove | src/Model.java:190-193 | the result is the cell of minimax(2, 'O'), the board is unchanged, and in an open valid game it is an empty cell |
| TicTacToe.Model.Minimax | src/Model.java:202-238 | the result is the search's choice for the current board and the value of checkGameOver(), and every cell it tries is restored |
| TicTacToe.Model.CheckGameOver | src/Model.java:245-247 | on a valid game, checkGameOver() is exactly gameOver |
| TicTacToe.Model.EvaluateBoard | src/Model.java:283-307 | the loop returns the static score of the current board |
| TicTacToe.Model.IsGameOver | src/Model.java:314-316 | on a valid game, the game is over exactly when a line is won or nine moves were played |
| Scenarios.TopRowWin | src/Model.java:67-96 | a game from a new model with a view: X plays (0, 0), (0, 1), (0, 2) against O's (1, 1), (2, 2), wins with "Player X wins!", and the next move is refused |
| Scenarios.FullBoardTie | src/Model.java:67-96 | a game from a new model with a view that fills the board as XOX / XOO / OXX with no line, ending with "Game ended in a tie!" |

## Findings

| source | as written | input that shows it | evidently intended | confidence | as-written member | corrected member |
|---|---|---|---|---|---|---|
| src/Model.java:205 | minimax asks `checkGameOver()`, which reads the real game's fields, so a node where 'O' has just won is searched further and 'X' may answer with a line that `evaluateBoard` scans first | board XX_ / OO_ / X__ with 'O' to move at difficulty 3: the win (1, 2) scores -10 after 'X' completes the top row, and (0, 2) is played | a node whose own board has a won line or no empty cell is terminal, so the hard move takes an immediate win | medium, not executed | Strategy.HardMissesWin | Strategy.IntendedHardTakesFirstWin |

`Search` takes its terminal test as a parameter:

- `GameFields(over)` is the test the code performs;
- `NodeBoard` is the intended test.

The class `Model` keeps the code's test, `GameFields(checkGameOver())`,
because the class models the program as it behaves. The corrected search
is stated and proved in `Strategy` alongside it.

## Left out

- The view (`src/View.java`) and the start-up code (`src/Main.java`) are not
  part of this model. The calls into the view are a ghost log of events.
- `src/Controller.java` is not part of this model. This includes its guard
  that forwards a click only while the game is open, and its reset when the
  difficulty changes on an unfinished game.
- makeAiMove's thread, its 500 ms sleep and its re-dispatch through
  `invokeLater` are concurrency and timing. `ChooseAiMove` makes the same
  choice synchronously; the caller plays the returned move with `PlayMove`
  when `PlayMove` reports that the computer is to answer.
- `Math.random()` is the parameter `u`. The floating-point rounding of
  `Math.random() * n` is not modelled; the index is the exact floor of
  u * n.
- PlayMove: it does not model the NullPointerException that the code raises
  when a move is played before a view is registered; the model logs the
  events regardless.
- Minimax: the depth is a `nat`. The code only ever passes 2. A negative
  depth would skip the `depth == 0` exit and search on to a full board,
  ending on the sentinels without calling evaluateBoard; that search is not
  modelled.
- The board is a flat array of nine cells rather than `char[3][3]`. Cell
  (r, c) is element 3r + c, so the two hold the same contents.
- Integer overflow is not modelled. No counter in the engine gets near the
  32-bit range (movesCount is at most 9). The sentinels Integer.MIN_VALUE
  and Integer.MAX_VALUE are kept exactly.
