/** The game state and its computer opponent: the class Model of the game,
    with the board updated in place, the fields currentPlayer, movesCount,
    gameOver and message, and the move selectors that try a symbol in a
    cell and take it back. The notifications to the user interface are
    recorded in a ghost log of events. */
module TicTacToe {
  import opened Board
  import opened Strategy

  /** The calls the model makes on the view, in order. */
  datatype ViewEvent =
    | Update(row: int, col: int, symbol: char, text: string)
    | UpdateMessage(text: string)
    | ShowGameOver(text: string)
    | ResetGame

  /** Player 1 plays 'X', player 2 plays 'O'. */
  function Symbol(player: int): char {
    if player == 1 then 'X' else 'O'
  }

  function WinMessage(symbol: char): string {
    "Player " + [symbol] + " wins!"
  }

  const TieMessage: string := "Game ended in a tie!"

  function TurnMessage(player: int): string {
    "Player " + [Symbol(player)] + "'s turn"
  }

  class Model {
    var currentPlayer: int
    var movesCount: int
    /** The 3x3 board in row-major order: cell (r, c) is board[3 * r + c]. */
    const board: array<char>
    var message: string
    var gameOver: bool
    /** 0: no computer opponent, 1: easy, 2: medium, 3: hard. */
    var aiDifficulty: int
    /** Whether a view has been registered. */
    var viewRegistered: bool
    ghost var events: seq<ViewEvent>

    ghost function Cells(): Grid
      reads this, board
      requires board.Length == 9
    {
      board[..]
    }

    /** The invariant of a game: the count of moves is the number of
        occupied cells, the game is over exactly when a line is won or the
        board is full, and an open game shows whose turn it is. */
    ghost predicate Valid()
      reads this, board
    {
      && board.Length == 9
      && (currentPlayer == 1 || currentPlayer == 2)
      && WellFormed(Cells())
      && movesCount == CountFilled(Cells())
      && (gameOver <==> HasWinningLine(Cells()) || movesCount == 9)
      && (!gameOver ==> message == TurnMessage(currentPlayer))
    }

    /** A move playMove accepts: the game is open and the cell is in range and empty. */
    ghost predicate Legal(row: int, col: int)
      reads this, board
      requires board.Length == 9
    {
      !gameOver && InRange(row, col) && board[Index(row, col)] == Blank
    }

    constructor ()
      ensures Valid() && fresh(board)
      ensures Cells() == EmptyGrid() && currentPlayer == 1 && movesCount == 0 && !gameOver
      ensures message == TurnMessage(1)
      ensures aiDifficulty == 0 && !viewRegistered && events == []
    {
      board := new char[9];
      currentPlayer, movesCount, gameOver, message := 0, 0, false, "";
      aiDifficulty, viewRegistered := 0, false;
      events := [];
      new;
      ResetModel();
    }

    method RegisterView()
      modifies this`viewRegistered
      ensures viewRegistered
    {
      viewRegistered := true;
    }

    /** Restores the initial configuration: an empty board, player X to
        move, no move played and the game open. */
    method ResetModel()
      requires board.Length == 9
      modifies this, board
      ensures Valid()
      ensures Cells() == EmptyGrid() && currentPlayer == 1 && movesCount == 0 && !gameOver
      ensures message == TurnMessage(1)
      ensures aiDifficulty == old(aiDifficulty) && viewRegistered == old(viewRegistered)
      ensures events == old(events) + (if viewRegistered then [ResetGame] else [])
    {
      currentPlayer := 1;
      movesCount := 0;
      gameOver := false;
      message := "Player X's turn";

      for i := 0 to 3
        modifies board
        invariant forall k :: 0 <= k < 3 * i ==> board[k] == Blank
      {
        for j := 0 to 3
          modifies board
          invariant forall k :: 0 <= k < 3 * i + j ==> board[k] == Blank
        {
          board[3 * i + j] := ' ';
        }
      }

      if viewRegistered {
        events := events + [ResetGame];
      }
      assert Cells() == EmptyGrid();
      assert message == TurnMessage(1);
      EmptyGridIsClear();
    }

    method SetAiDifficulty(difficulty: int)
      modifies this`aiDifficulty
      ensures aiDifficulty == difficulty
    {
      aiDifficulty := difficulty;
    }

    /** Plays the current player's symbol at (row, col). An illegal move
        changes nothing. A legal one marks the cell and counts the move;
        then a line through the cell wins (even on the ninth move), else a
        full board is a tie, else the turn passes to the other player.
        aiTurn says that the computer opponent is now to answer. */
    method PlayMove(row: int, col: int) returns (aiTurn: bool)
      requires Valid()
      modifies this, board
      ensures Valid()
      ensures aiDifficulty == old(aiDifficulty) && viewRegistered == old(viewRegistered)
      ensures !old(Legal(row, col)) ==> unchanged(this) && unchanged(board) && !aiTurn
      ensures old(Legal(row, col)) ==>
        && Cells() == old(Cells())[Index(row, col) := Symbol(old(currentPlayer))]
        && movesCount == old(movesCount) + 1
      ensures old(Legal(row, col)) && CheckWinner(Cells(), row, col) ==>
        && gameOver && currentPlayer == old(currentPlayer)
        && message == WinMessage(Symbol(old(currentPlayer)))
        && events == old(events) + [Update(row, col, Symbol(old(currentPlayer)), old(message)), ShowGameOver(message)]
        && !aiTurn
      ensures old(Legal(row, col)) && !CheckWinner(Cells(), row, col) && movesCount == 9 ==>
        && gameOver && currentPlayer == old(currentPlayer)
        && message == TieMessage
        && events == old(events) + [Update(row, col, Symbol(old(currentPlayer)), old(message)), ShowGameOver(message)]
        && !aiTurn
      ensures old(Legal(row, col)) && !CheckWinner(Cells(), row, col) && movesCount < 9 ==>
        && !gameOver && currentPlayer == (if old(currentPlayer) == 1 then 2 else 1)
        && message == TurnMessage(currentPlayer)
        && events == old(events) + [Update(row, col, Symbol(old(currentPlayer)), old(message)), UpdateMessage(message)]
        && aiTurn == (currentPlayer == 2 && aiDifficulty > 0)
    {
      if gameOver || row < 0 || row >= 3 || col < 0 || col >= 3 || board[3 * row + col] != ' ' {
        return false;
      }
      ghost var g := Cells();

      var symbol := if currentPlayer == 1 then 'X' else 'O';
      board[3 * row + col] := symbol;
      movesCount := movesCount + 1;
      MarkAddsOne(g, Index(row, col), symbol);
      LocalCheckAgreesWithFullScan(g, row, col, symbol);

      events := events + [Update(row, col, symbol, message)];

      if CheckWinner(board[..], row, col) {
        message := "Player " + [symbol] + " wins!";
        gameOver := true;
        events := events + [ShowGameOver(message)];
        aiTurn := false;
      } else if movesCount == 9 {
        message := "Game ended in a tie!";
        gameOver := true;
        events := events + [ShowGameOver(message)];
        aiTurn := false;
      } else {
        currentPlayer := if currentPlayer == 1 then 2 else 1;
        symbol := if currentPlayer == 1 then 'X' else 'O';
        message := "Player " + [symbol] + "'s turn";
        events := events + [UpdateMessage(message)];
        aiTurn := currentPlayer == 2 && aiDifficulty > 0 && !gameOver;
      }
    }

    /** The move of the computer opponent for the chosen difficulty: the
        selection step of makeAiMove, run synchronously. u stands for the
        value of Math.random(). */
    method ChooseAiMove(u: real) returns (move: Option<Move>)
      requires board.Length == 9 && 0.0 <= u < 1.0
      modifies board
      ensures Cells() == old(Cells())
      ensures aiDifficulty == 1 ==> move == RandomChoice(Cells(), u)
      ensures aiDifficulty == 2 ==> move == MediumChoice(Cells(), u)
      ensures aiDifficulty == 3 ==>
        var c := Search(Cells(), 2, 'O', GameFields(CheckGameOver()));
        move == Some(Move(c.row, c.col))
      ensures aiDifficulty != 1 && aiDifficulty != 2 && aiDifficulty != 3 ==> move == Some(Move(0, 0))
    {
      // the default arm yields the fresh array new int[2], that is (0, 0)
      match aiDifficulty
      case 1 => move := MakeRandomMove(u);
      case 2 => move := MakeMediumMove(u);
      case 3 => var m := MakeHardMove(); move := Some(m);
      case _ => move := Some(Move(0, 0));
    }

    /** A uniformly drawn empty cell, or none when the board is full. */
    method MakeRandomMove(u: real) returns (move: Option<Move>)
      requires board.Length == 9 && 0.0 <= u < 1.0
      ensures move == RandomChoice(Cells(), u)
    {
      var availableMoves: seq<Move> := [];

      for i := 0 to 3
        invariant availableMoves == EmptyCellsBefore(Cells(), 3 * i)
      {
        for j := 0 to 3
          invariant availableMoves == EmptyCellsBefore(Cells(), 3 * i + j)
        {
          if board[3 * i + j] == ' ' {
            CellOfIndex(i, j);
            availableMoves := availableMoves + [Move(i, j)];
          }
        }
      }

      if |availableMoves| == 0 {
        return None;
      }

      var randomIndex := RandomIndex(u, |availableMoves|);
      move := Some(availableMoves[randomIndex]);
    }

    /** Wins if 'O' can complete a line, else blocks a line 'X' could
        complete, else plays a random empty cell; the board is left as
        it was found. */
    method MakeMediumMove(u: real) returns (move: Option<Move>)
      requires board.Length == 9 && 0.0 <= u < 1.0
      modifies board
      ensures Cells() == old(Cells())
      ensures move == MediumChoice(Cells(), u)
    {
      move := FindCompleting('O');
      if move.Some? {
        return;
      }
      move := FindCompleting('X');
      if move.Some? {
        return;
      }
      move := MakeRandomMove(u);
    }

    /** One of the two scans of makeMediumMove: the first empty cell, in
        row-major order, where the symbol would complete a line; each cell
        tried is set back to ' '. */
    method FindCompleting(symbol: char) returns (move: Option<Move>)
      requires board.Length == 9
      modifies board
      ensures Cells() == old(Cells())
      ensures move == FirstCompleting(Cells(), symbol, 0)
    {
      ghost var g := Cells();

      for i := 0 to 3
        invariant Cells() == g
        invariant FirstCompleting(g, symbol, 0) == FirstCompleting(g, symbol, 3 * i)
      {
        for j := 0 to 3
          invariant Cells() == g
          invariant FirstCompleting(g, symbol, 0) == FirstCompleting(g, symbol, 3 * i + j)
        {
          FirstCompletingAt(g, symbol, i, j);
          if board[3 * i + j] == ' ' {
            board[3 * i + j] := symbol;
            assert Cells() == g[3 * i + j := symbol];
            var wins := CheckWinner(board[..], i, j);
            board[3 * i + j] := ' ';
            RestoreCell(g, 3 * i + j, symbol);
            if wins {
              return Some(Move(i, j));
            }
          }
        }
      }
      return None;
    }

    /** The cell minimax(2, 'O') chooses; in an open game it is an empty cell. */
    method MakeHardMove() returns (move: Move)
      requires board.Length == 9
      modifies board
      ensures Cells() == old(Cells())
      ensures var c := Search(Cells(), 2, 'O', GameFields(CheckGameOver())); move == Move(c.row, c.col)
      ensures Valid() && !gameOver ==> InRange(move.row, move.col) && Cells()[Index(move.row, move.col)] == Blank
    {
      var bestMove := Minimax(2, 'O');
      move := Move(bestMove.row, bestMove.col);
      if Valid() && !gameOver {
        FullBoard(Cells());
        HardChoiceIsBlank(Cells());
      }
    }

    /** The depth-bounded search: 'O' maximizes and 'X' minimizes the
        static score, trying each empty cell in row-major order and taking
        it back; the board is left as it was found. */
    method Minimax(depth: nat, player: char) returns (best: Choice)
      requires board.Length == 9
      modifies board
      decreases depth
      ensures Cells() == old(Cells())
      ensures best == Search(Cells(), depth, player, GameFields(CheckGameOver()))
    {
      best := Choice(if player == 'O' then MinInt else MaxInt, -1, -1);

      if CheckGameOver() || depth == 0 {
        var score := EvaluateBoard();
        return Choice(score, -1, -1);
      }

      ghost var g := Cells();
      ghost var t := GameFields(CheckGameOver());

      for i := 0 to 3
        invariant Cells() == g
        invariant ScanFrom(g, depth, player, t, 3 * i, best) == Search(g, depth, player, t)
      {
        for j := 0 to 3
          invariant Cells() == g
          invariant ScanFrom(g, depth, player, t, 3 * i + j, best) == Search(g, depth, player, t)
        {
          ghost var k := 3 * i + j;
          assert k / 3 == i && k % 3 == j;
          ghost var before := best;
          if board[3 * i + j] == ' ' {
            board[3 * i + j] := player;

            var score: Choice;
            if player == 'O' {
              score := Minimax(depth - 1, 'X');
              if score.score > best.score {
                best := Choice(score.score, i, j);
              }
            } else {
              score := Minimax(depth - 1, 'O');
              if score.score < best.score {
                best := Choice(score.score, i, j);
              }
            }

            board[3 * i + j] := ' ';
            assert Cells() == g;
          }
          assert best == Step(g, depth, player, t, k, before);
        }
      }
    }

    /** checkGameOver() reads the game's own fields; on a valid game it is
        just gameOver, since a full board already ends the game. */
    function CheckGameOver(): (over: bool)
      reads this, board
      ensures Valid() ==> (over <==> gameOver)
    {
      gameOver || movesCount == 9
    }

    /** +10 / -10 / 0 for the first line, in scan order, that is won. */
    method EvaluateBoard() returns (score: int)
      requires board.Length == 9
      ensures score == Evaluate(Cells())
    {
      ghost var g := Cells();

      for i := 0 to 3
        invariant FirstHolding(g, 0) == FirstHolding(g, 2 * i)
      {
        ScanLineOfIndex(i);
        // row i
        if board[3 * i] != ' ' && board[3 * i] == board[3 * i + 1] && board[3 * i + 1] == board[3 * i + 2] {
          return if board[3 * i] == 'O' then 10 else -10;
        }
        // column i
        if board[i] != ' ' && board[i] == board[3 + i] && board[3 + i] == board[6 + i] {
          return if board[i] == 'O' then 10 else -10;
        }
      }

      // main diagonal
      if board[0] != ' ' && board[0] == board[4] && board[4] == board[8] {
        return if board[0] == 'O' then 10 else -10;
      }

      // anti-diagonal
      if board[2] != ' ' && board[2] == board[4] && board[4] == board[6] {
        return if board[2] == 'O' then 10 else -10;
      }

      return 0;
    }

    function IsGameOver(): (over: bool)
      reads this, board
      ensures Valid() ==> (over <==> HasWinningLine(Cells()) || movesCount == 9)
    {
      gameOver
    }
  }
}
