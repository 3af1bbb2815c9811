/** The 3x3 board of the game as a value, and the read-only queries the game
    and its computer opponent ask of it: the line test through one cell
    (checkWinner), the static evaluation (evaluateBoard), the number of
    occupied cells and the list of empty cells. */
module Board {

  datatype Option<T> = None | Some(value: T)

  /** A cell position as the game exchanges it: a (row, col) pair. */
  datatype Move = Move(row: int, col: int)

  /** The board in row-major order: cell (r, c) is at index 3 * r + c.
      A cell holds ' ' (empty), 'X' or 'O'. */
  type Grid = g: seq<char> | |g| == 9 witness "         "

  const Blank: char := ' '

  predicate InRange(row: int, col: int) {
    0 <= row < 3 && 0 <= col < 3
  }

  function Index(row: int, col: int): int {
    3 * row + col
  }

  /** The cell at a row-major index. */
  function CellOf(k: nat): (m: Move)
    requires k < 9
    ensures InRange(m.row, m.col) && Index(m.row, m.col) == k
  {
    Move(k / 3, k % 3)
  }

  lemma CellOfIndex(row: nat, col: nat)
    requires InRange(row, col)
    ensures CellOf(Index(row, col)) == Move(row, col)
  {
  }

  /** Writing s into an empty cell and then ' ' gives the board back. */
  lemma RestoreCell(g: Grid, k: nat, s: char)
    requires k < 9 && g[k] == Blank
    ensures g[k := s][k := Blank] == g
  {
  }

  /** The board after a reset. */
  function EmptyGrid(): (g: Grid)
    ensures forall k :: 0 <= k < 9 ==> g[k] == Blank
  {
    seq(9, _ => Blank)
  }

  /** Every cell holds one of the three cell values. */
  predicate WellFormed(g: Grid) {
    forall k :: 0 <= k < 9 ==> g[k] == Blank || g[k] == 'X' || g[k] == 'O'
  }

  // ---------------------------------------------------------------------
  // Lines

  /** Three cell indices that form a row, a column or a diagonal. */
  datatype Line = Line(a: nat, b: nat, c: nat)

  function RowLine(r: nat): Line
    requires r < 3
  {
    Line(3 * r, 3 * r + 1, 3 * r + 2)
  }

  function ColLine(c: nat): Line
    requires c < 3
  {
    Line(c, c + 3, c + 6)
  }

  const MainDiagonal: Line := Line(0, 4, 8)
  const AntiDiagonal: Line := Line(2, 4, 6)

  /** All eight lines in the order evaluateBoard scans them: rows and
      columns interleaved by index, then the main and the anti-diagonal. */
  function ScanLine(n: nat): (l: Line)
    requires n < 8
    ensures l.a < 9 && l.b < 9 && l.c < 9
  {
    if n < 6 then (if n % 2 == 0 then RowLine(n / 2) else ColLine(n / 2))
    else if n == 6 then MainDiagonal
    else AntiDiagonal
  }

  /** Row i and column i are the lines 2i and 2i + 1 of the scan. */
  lemma ScanLineOfIndex(i: nat)
    requires i < 3
    ensures ScanLine(2 * i) == RowLine(i) && ScanLine(2 * i + 1) == ColLine(i)
  {
  }

  predicate OnLine(k: int, l: Line) {
    k == l.a || k == l.b || k == l.c
  }

  /** The three cells of the line all hold s. */
  predicate FilledWith(g: Grid, l: Line, s: char)
    requires l.a < 9 && l.b < 9 && l.c < 9
  {
    g[l.a] == s && g[l.b] == s && g[l.c] == s
  }

  /** The line holds three equal non-blank symbols. */
  predicate Holds(g: Grid, l: Line)
    requires l.a < 9 && l.b < 9 && l.c < 9
  {
    g[l.a] != Blank && FilledWith(g, l, g[l.a])
  }

  /** Some row, column or diagonal holds three equal non-blank symbols. */
  predicate HasWinningLine(g: Grid) {
    || (exists r: nat :: r < 3 && Holds(g, RowLine(r)))
    || (exists c: nat :: c < 3 && Holds(g, ColLine(c)))
    || Holds(g, MainDiagonal)
    || Holds(g, AntiDiagonal)
  }

  /** A board none of whose eight lines holds has no winning line. */
  lemma NoLineOnBoard(g: Grid)
    requires !Holds(g, RowLine(0)) && !Holds(g, RowLine(1)) && !Holds(g, RowLine(2))
    requires !Holds(g, ColLine(0)) && !Holds(g, ColLine(1)) && !Holds(g, ColLine(2))
    requires !Holds(g, MainDiagonal) && !Holds(g, AntiDiagonal)
    ensures !HasWinningLine(g)
  {
    forall r: nat | r < 3
      ensures !Holds(g, RowLine(r)) && !Holds(g, ColLine(r))
    {
      if r == 0 {} else if r == 1 {} else {}
    }
  }

  lemma HasWinningLineInScanOrder(g: Grid)
    ensures HasWinningLine(g) <==> exists n: nat :: n < 8 && Holds(g, ScanLine(n))
  {
    if HasWinningLine(g) {
      if r: nat :| r < 3 && Holds(g, RowLine(r)) {
        assert ScanLine(2 * r) == RowLine(r);
      } else if c: nat :| c < 3 && Holds(g, ColLine(c)) {
        assert ScanLine(2 * c + 1) == ColLine(c);
      } else if Holds(g, MainDiagonal) {
        assert ScanLine(6) == MainDiagonal;
      } else {
        assert ScanLine(7) == AntiDiagonal;
      }
    }
    if n: nat :| n < 8 && Holds(g, ScanLine(n)) {
      if n < 6 && n % 2 == 0 {
        assert Holds(g, RowLine(n / 2));
      } else if n < 6 {
        assert Holds(g, ColLine(n / 2));
      }
    }
  }

  // ---------------------------------------------------------------------
  // checkWinner: the local line test through the cell just played

  /** True iff row `row`, column `col`, the main diagonal (only when
      row == col) or the anti-diagonal (only when row + col == 2) holds
      three copies of the symbol in cell (row, col). */
  function CheckWinner(g: Grid, row: int, col: int): bool
    requires InRange(row, col)
  {
    var s := g[Index(row, col)];
    || FilledWith(g, RowLine(row), s)
    || FilledWith(g, ColLine(col), s)
    || (row == col && FilledWith(g, MainDiagonal, s))
    || (row + col == 2 && FilledWith(g, AntiDiagonal, s))
  }

  /** checkWinner holds exactly when one of the eight lines that passes
      through the cell is filled with the cell's own symbol. */
  lemma CheckWinnerIsLineThroughCell(g: Grid, row: int, col: int)
    requires InRange(row, col)
    ensures CheckWinner(g, row, col) <==>
      exists n: nat :: n < 8 && OnLine(Index(row, col), ScanLine(n))
                          && FilledWith(g, ScanLine(n), g[Index(row, col)])
  {
    if CheckWinner(g, row, col) {
      var n := CheckedLine(g, row, col);
    }
    if n: nat :| n < 8 && OnLine(Index(row, col), ScanLine(n)) && FilledWith(g, ScanLine(n), g[Index(row, col)]) {
      LineThroughCellIsChecked(g, row, col, n);
    }
  }

  /** The line, in scan order, that makes checkWinner hold. */
  lemma CheckedLine(g: Grid, row: int, col: int) returns (n: nat)
    requires InRange(row, col) && CheckWinner(g, row, col)
    ensures n < 8 && OnLine(Index(row, col), ScanLine(n)) && FilledWith(g, ScanLine(n), g[Index(row, col)])
  {
    var s := g[Index(row, col)];
    LinesThroughCell(row, col);
    if FilledWith(g, RowLine(row), s) {
      n := 2 * row;
    } else if FilledWith(g, ColLine(col), s) {
      n := 2 * col + 1;
    } else if row == col && FilledWith(g, MainDiagonal, s) {
      n := 6;
    } else {
      n := 7;
    }
  }

  /** The row, the column and, on a diagonal, that diagonal pass through a cell. */
  lemma LinesThroughCell(row: int, col: int)
    requires InRange(row, col)
    ensures ScanLine(2 * row) == RowLine(row) && OnLine(Index(row, col), RowLine(row))
    ensures ScanLine(2 * col + 1) == ColLine(col) && OnLine(Index(row, col), ColLine(col))
    ensures row == col ==> OnLine(Index(row, col), MainDiagonal)
    ensures row + col == 2 ==> OnLine(Index(row, col), AntiDiagonal)
  {
    ScanLineOfIndex(row);
    ScanLineOfIndex(col);
    if row == 0 {} else if row == 1 {} else {}
  }

  lemma LineThroughCellIsChecked(g: Grid, row: int, col: int, n: nat)
    requires InRange(row, col) && n < 8
    requires OnLine(Index(row, col), ScanLine(n)) && FilledWith(g, ScanLine(n), g[Index(row, col)])
    ensures CheckWinner(g, row, col)
  {
    if n < 6 && n % 2 == 0 {
      RowThroughCellIsChecked(g, row, col, n / 2);
    } else if n < 6 {
      ColThroughCellIsChecked(g, row, col, n / 2);
    } else if n == 6 {
      assert row == col;
    } else {
      assert row + col == 2;
    }
  }

  lemma RowThroughCellIsChecked(g: Grid, row: int, col: int, r: nat)
    requires InRange(row, col) && r < 3
    requires OnLine(Index(row, col), RowLine(r)) && FilledWith(g, RowLine(r), g[Index(row, col)])
    ensures CheckWinner(g, row, col)
  {
    assert row == r by {
      if row == 0 {
      } else if row == 1 {
      } else {
      }
    }
  }

  lemma ColThroughCellIsChecked(g: Grid, row: int, col: int, c: nat)
    requires InRange(row, col) && c < 3
    requires OnLine(Index(row, col), ColLine(c)) && FilledWith(g, ColLine(c), g[Index(row, col)])
    ensures CheckWinner(g, row, col)
  {
    assert col == c by {
      if row == 0 {
      } else if row == 1 {
      } else {
      }
    }
  }

  /** The local test agrees with a scan of all eight lines: on a board with
      no winning line, marking one empty cell with a non-blank symbol makes
      a winning line appear exactly when checkWinner holds at that cell. */
  lemma LocalCheckAgreesWithFullScan(g: Grid, row: int, col: int, s: char)
    requires InRange(row, col) && g[Index(row, col)] == Blank && s != Blank
    requires !HasWinningLine(g)
    ensures CheckWinner(g[Index(row, col) := s], row, col) <==> HasWinningLine(g[Index(row, col) := s])
  {
    var k := Index(row, col);
    var h := g[k := s];
    CheckWinnerIsLineThroughCell(h, row, col);
    HasWinningLineInScanOrder(g);
    HasWinningLineInScanOrder(h);
    if HasWinningLine(h) {
      var n: nat :| n < 8 && Holds(h, ScanLine(n));
      var l := ScanLine(n);
      if !OnLine(k, l) {
        assert h[l.a] == g[l.a] && h[l.b] == g[l.b] && h[l.c] == g[l.c];
        assert Holds(g, l);
        assert false;
      }
      assert FilledWith(h, l, h[k]);
    }
  }

  // ---------------------------------------------------------------------
  // evaluateBoard: the static evaluator of the minimax search

  /** The index in scan order of the first line, at or after `from`, that
      holds three equal non-blank symbols. */
  function FirstHolding(g: Grid, from: nat): Option<nat>
    requires from <= 8
    decreases 8 - from
  {
    if from == 8 then None
    else if Holds(g, ScanLine(from)) then Some(from)
    else FirstHolding(g, from + 1)
  }

  /** FirstHolding finds the earliest line at or after `from` that holds,
      and finds none exactly when none holds. */
  lemma {:induction false} FirstHoldingIsFirst(g: Grid, from: nat)
    requires from <= 8
    decreases 8 - from
    ensures var r := FirstHolding(g, from);
      r.Some? ==>
        && from <= r.value < 8
        && Holds(g, ScanLine(r.value))
        && forall n: nat :: from <= n < r.value ==> !Holds(g, ScanLine(n))
    ensures FirstHolding(g, from).None? <==> forall n: nat :: from <= n < 8 ==> !Holds(g, ScanLine(n))
  {
    if from < 8 && !Holds(g, ScanLine(from)) {
      FirstHoldingIsFirst(g, from + 1);
    }
  }

  /** +10 when the first line in scan order that holds is 'O''s, -10 when it
      is another symbol's, and 0 when no line holds. */
  function Evaluate(g: Grid): (score: int)
    ensures score == 10 || score == -10 || score == 0
  {
    FirstHoldingIsFirst(g, 0);
    match FirstHolding(g, 0)
    case None => 0
    case Some(n) => if g[ScanLine(n).a] == 'O' then 10 else -10
  }

  /** The first line in scan order that holds is 'O''s. */
  predicate FirstWinnerIs(g: Grid, s: char) {
    exists n: nat :: n < 8 && Holds(g, ScanLine(n)) && g[ScanLine(n).a] == s
                  && forall m: nat :: m < n ==> !Holds(g, ScanLine(m))
  }

  /** evaluateBoard is 0 iff no line is won, +10 iff the first won line in
      its scan order is 'O''s, and -10 iff that line is someone else's. */
  lemma EvaluateMeaning(g: Grid)
    ensures Evaluate(g) == 0 <==> !HasWinningLine(g)
    ensures Evaluate(g) == 10 <==> FirstWinnerIs(g, 'O')
    ensures Evaluate(g) == -10 <==> HasWinningLine(g) && !FirstWinnerIs(g, 'O')
  {
    HasWinningLineInScanOrder(g);
    FirstHoldingIsFirst(g, 0);
    if FirstWinnerIs(g, 'O') {
      var n: nat :| n < 8 && Holds(g, ScanLine(n)) && g[ScanLine(n).a] == 'O'
                    && forall m: nat :: m < n ==> !Holds(g, ScanLine(m));
      FirstHoldingIsUnique(g, n);
    }
  }

  /** The first line that holds is the one FirstHolding finds. */
  lemma FirstHoldingIsUnique(g: Grid, n: nat)
    requires n < 8 && Holds(g, ScanLine(n))
    requires forall m: nat :: m < n ==> !Holds(g, ScanLine(m))
    ensures FirstHolding(g, 0) == Some(n)
  {
    FirstHoldingIsFirst(g, 0);
  }

  // ---------------------------------------------------------------------
  // Occupied and empty cells

  /** The number of non-blank cells among the first n (row-major). */
  function FilledBefore(g: Grid, n: nat): (r: nat)
    requires n <= 9
    ensures r <= n
  {
    if n == 0 then 0 else FilledBefore(g, n - 1) + (if g[n - 1] != Blank then 1 else 0)
  }

  function CountFilled(g: Grid): nat {
    FilledBefore(g, 9)
  }

  lemma {:induction false} FilledBeforeAfterMark(g: Grid, k: nat, s: char, n: nat)
    requires k < 9 && g[k] == Blank && s != Blank && n <= 9
    ensures FilledBefore(g[k := s], n) == FilledBefore(g, n) + (if k < n then 1 else 0)
  {
    if n > 0 {
      FilledBeforeAfterMark(g, k, s, n - 1);
    }
  }

  /** Marking one empty cell adds exactly one occupied cell. */
  lemma MarkAddsOne(g: Grid, k: nat, s: char)
    requires k < 9 && g[k] == Blank && s != Blank
    ensures CountFilled(g[k := s]) == CountFilled(g) + 1
  {
    FilledBeforeAfterMark(g, k, s, 9);
  }

  lemma {:induction false} FilledBeforeEmpty(n: nat)
    requires n <= 9
    ensures FilledBefore(EmptyGrid(), n) == 0
  {
    if n > 0 {
      FilledBeforeEmpty(n - 1);
    }
  }

  /** The board after a reset has no occupied cell and no winning line. */
  lemma EmptyGridIsClear()
    ensures CountFilled(EmptyGrid()) == 0 && !HasWinningLine(EmptyGrid())
  {
    FilledBeforeEmpty(9);
  }

  lemma {:induction false} FilledBeforeBound(g: Grid, n: nat)
    requires n <= 9
    ensures FilledBefore(g, n) == n <==> forall k :: 0 <= k < n ==> g[k] != Blank
  {
    if n > 0 {
      FilledBeforeBound(g, n - 1);
    }
  }

  /** All nine cells are occupied exactly when the count reaches nine. */
  lemma FullBoard(g: Grid)
    ensures CountFilled(g) == 9 <==> forall k :: 0 <= k < 9 ==> g[k] != Blank
  {
    FilledBeforeBound(g, 9);
  }

  /** The empty cells among the first n, in row-major order: the list
      makeRandomMove builds. */
  function EmptyCellsBefore(g: Grid, n: nat): (r: seq<Move>)
    requires n <= 9
    ensures |r| + FilledBefore(g, n) == n
    ensures forall i :: 0 <= i < |r| ==>
      InRange(r[i].row, r[i].col) && Index(r[i].row, r[i].col) < n && g[Index(r[i].row, r[i].col)] == Blank
    ensures forall i, j :: 0 <= i < j < |r| ==> Index(r[i].row, r[i].col) < Index(r[j].row, r[j].col)
    ensures forall k :: 0 <= k < n && g[k] == Blank ==> CellOf(k) in r
  {
    if n == 0 then []
    else EmptyCellsBefore(g, n - 1) + (if g[n - 1] == Blank then [CellOf(n - 1)] else [])
  }

  function EmptyCells(g: Grid): (r: seq<Move>)
    ensures |r| == 9 - CountFilled(g)
  {
    EmptyCellsBefore(g, 9)
  }

  /** floor(u * n): the index (int)(Math.random() * n) for a draw u in [0, 1). */
  function RandomIndex(u: real, n: nat): (i: nat)
    requires 0.0 <= u < 1.0 && n > 0
    ensures i < n
  {
    var x := u * n as real;
    assert 0.0 <= x < n as real;
    x.Floor
  }
}
