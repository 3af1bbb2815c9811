/** Two games played through the model from a fresh start, as a caller
    would play them: a win on the top row, and a full board without a
    line, which is a tie. */
module Scenarios {
  import opened Board
  import opened TicTacToe

  /** One move of a scripted game that neither wins nor fills the board. */
  method PlayOpen(m: Model, row: int, col: int, before: Grid, after: Grid)
    requires m.Valid() && !m.gameOver && m.Cells() == before
    requires InRange(row, col) && before[Index(row, col)] == Blank
    requires after == before[Index(row, col) := Symbol(m.currentPlayer)]
    requires !CheckWinner(after, row, col) && m.movesCount < 8
    modifies m, m.board
    ensures m.Valid() && !m.gameOver && m.Cells() == after
    ensures m.currentPlayer == 3 - old(m.currentPlayer) && m.movesCount == old(m.movesCount) + 1
  {
    var ai := m.PlayMove(row, col);
  }

  /** The last move of a scripted game: it completes a line, or else it
      fills the board. */
  method PlayLast(m: Model, row: int, col: int, before: Grid, after: Grid)
    requires m.Valid() && !m.gameOver && m.Cells() == before
    requires InRange(row, col) && before[Index(row, col)] == Blank
    requires after == before[Index(row, col) := Symbol(m.currentPlayer)]
    requires CheckWinner(after, row, col) || m.movesCount == 8
    modifies m, m.board
    ensures m.Valid() && m.gameOver && m.Cells() == after
    ensures CheckWinner(after, row, col) ==> m.message == WinMessage(Symbol(old(m.currentPlayer)))
    ensures !CheckWinner(after, row, col) ==> m.message == TieMessage
  {
    var ai := m.PlayMove(row, col);
  }

  /** A move after the end of a game is refused. */
  method PlayRefused(m: Model, row: int, col: int, before: Grid)
    requires m.Valid() && m.gameOver && m.Cells() == before
    modifies m, m.board
    ensures m.Valid() && m.gameOver && m.Cells() == before
    ensures m.movesCount == old(m.movesCount) && m.message == old(m.message)
  {
    var ai := m.PlayMove(row, col);
  }

  method TopRowWin() {
    var m := new Model();
    m.RegisterView();
    PlayOpen(m, 0, 0, "         ", "X        ");
    PlayOpen(m, 1, 1, "X        ", "X   O    ");
    PlayOpen(m, 0, 1, "X   O    ", "XX  O    ");
    PlayOpen(m, 2, 2, "XX  O    ", "XX  O   O");
    assert m.currentPlayer == 1;
    PlayLast(m, 0, 2, "XX  O   O", "XXX O   O");
    assert m.message == WinMessage('X');
    PlayRefused(m, 1, 0, "XXX O   O");
  }

  /** The first four moves of the tie game. */
  method TieOpening() returns (m: Model)
    ensures fresh(m) && fresh(m.board)
    ensures m.Valid() && !m.gameOver && m.Cells() == "XOX O    "
    ensures m.currentPlayer == 1 && m.movesCount == 4
  {
    m := new Model();
    m.RegisterView();
    PlayOpen(m, 0, 0, "         ", "X        ");
    PlayOpen(m, 0, 1, "X        ", "XO       ");
    PlayOpen(m, 0, 2, "XO       ", "XOX      ");
    PlayOpen(m, 1, 1, "XOX      ", "XOX O    ");
  }

  method FullBoardTie() {
    var m := TieOpening();
    PlayOpen(m, 1, 0, "XOX O    ", "XOXXO    ");
    PlayOpen(m, 1, 2, "XOXXO    ", "XOXXOO   ");
    PlayOpen(m, 2, 1, "XOXXOO   ", "XOXXOO X ");
    PlayOpen(m, 2, 0, "XOXXOO X ", "XOXXOOOX ");
    assert m.currentPlayer == 1 && m.movesCount == 8;
    PlayLast(m, 2, 2, "XOXXOOOX ", "XOXXOOOXX");
    assert !CheckWinner("XOXXOOOXX", 2, 2);
    assert m.message == TieMessage;
  }
}
