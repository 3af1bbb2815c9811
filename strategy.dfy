/** What the three computer move selectors choose, as functions of the board:
    a uniform draw among the empty cells (makeRandomMove), win-then-block
    in row-major order (makeMediumMove), and the depth-bounded minimax
    search (minimax / makeHardMove). The AI always plays 'O'. */
module Strategy {
  import opened Board

  const MinInt: int := -0x8000_0000
  const MaxInt: int := 0x7fff_ffff

  // ---------------------------------------------------------------------
  // Easy: a draw among the empty cells

  /** The cell makeRandomMove returns for the draw u of Math.random(): the
      floor(u * n)-th of the n empty cells in row-major order, or none. */
  function RandomChoice(g: Grid, u: real): (m: Option<Move>)
    requires 0.0 <= u < 1.0
    ensures m.None? <==> forall k :: 0 <= k < 9 ==> g[k] != Blank
    ensures m.Some? ==> InRange(m.value.row, m.value.col) && g[Index(m.value.row, m.value.col)] == Blank
  {
    var e := EmptyCells(g);
    if |e| == 0 then
      FullBoard(g);
      None
    else
      Some(e[RandomIndex(u, |e|)])
  }

  // ---------------------------------------------------------------------
  // Medium: win if possible, else block, else random

  /** Putting s into the empty cell k completes a line through it. */
  predicate Completes(g: Grid, k: nat, s: char)
    requires k < 9
  {
    g[k] == Blank && CheckWinner(g[k := s], k / 3, k % 3)
  }

  /** The first cell, in row-major order from index `from`, that s completes. */
  function FirstCompleting(g: Grid, s: char, from: nat): Option<Move>
    requires from <= 9
    decreases 9 - from
  {
    if from == 9 then None
    else if Completes(g, from, s) then Some(CellOf(from))
    else FirstCompleting(g, s, from + 1)
  }

  /** One step of that scan at cell (row, col). */
  lemma FirstCompletingAt(g: Grid, s: char, row: nat, col: nat)
    requires InRange(row, col)
    ensures FirstCompleting(g, s, Index(row, col)) ==
      if g[Index(row, col)] == Blank && CheckWinner(g[Index(row, col) := s], row, col)
      then Some(Move(row, col))
      else FirstCompleting(g, s, Index(row, col) + 1)
  {
    assert Index(row, col) / 3 == row && Index(row, col) % 3 == col;
  }

  /** FirstCompleting finds the earliest completing cell at or after
      `from`, and finds none exactly when there is none. */
  lemma {:induction false} FirstCompletingIsFirst(g: Grid, s: char, from: nat)
    requires from <= 9
    decreases 9 - from
    ensures var m := FirstCompleting(g, s, from);
      m.Some? ==>
        && InRange(m.value.row, m.value.col)
        && from <= Index(m.value.row, m.value.col)
        && Completes(g, Index(m.value.row, m.value.col), s)
        && forall j :: from <= j < Index(m.value.row, m.value.col) ==> !Completes(g, j, s)
    ensures FirstCompleting(g, s, from).None? <==> forall j :: from <= j < 9 ==> !Completes(g, j, s)
  {
    if from < 9 && !Completes(g, from, s) {
      FirstCompletingIsFirst(g, s, from + 1);
    }
  }

  /** The cell makeMediumMove returns: the first cell where 'O' wins, else
      the first cell where 'X' would win, else a random empty cell. */
  function MediumChoice(g: Grid, u: real): Option<Move>
    requires 0.0 <= u < 1.0
  {
    match FirstCompleting(g, 'O', 0)
    case Some(w) => Some(w)
    case None =>
      match FirstCompleting(g, 'X', 0)
      case Some(b) => Some(b)
      case None => RandomChoice(g, u)
  }

  /** When 'O' can complete a line, the medium move is the first such cell. */
  lemma MediumTakesFirstWin(g: Grid, u: real)
    requires 0.0 <= u < 1.0
    requires exists k :: 0 <= k < 9 && Completes(g, k, 'O')
    ensures var m := MediumChoice(g, u);
      && m.Some? && InRange(m.value.row, m.value.col)
      && Completes(g, Index(m.value.row, m.value.col), 'O')
      && forall j :: 0 <= j < Index(m.value.row, m.value.col) ==> !Completes(g, j, 'O')
  {
    FirstCompletingIsFirst(g, 'O', 0);
  }

  /** Otherwise, when 'X' could complete a line, it is the first such cell. */
  lemma MediumTakesFirstBlock(g: Grid, u: real)
    requires 0.0 <= u < 1.0
    requires forall k :: 0 <= k < 9 ==> !Completes(g, k, 'O')
    requires exists k :: 0 <= k < 9 && Completes(g, k, 'X')
    ensures var m := MediumChoice(g, u);
      && m.Some? && InRange(m.value.row, m.value.col)
      && Completes(g, Index(m.value.row, m.value.col), 'X')
      && forall j :: 0 <= j < Index(m.value.row, m.value.col) ==> !Completes(g, j, 'X')
  {
    FirstCompletingIsFirst(g, 'O', 0);
    FirstCompletingIsFirst(g, 'X', 0);
  }

  /** Otherwise it is the random move. */
  lemma MediumFallsBackToRandom(g: Grid, u: real)
    requires 0.0 <= u < 1.0
    requires forall k :: 0 <= k < 9 ==> !Completes(g, k, 'O') && !Completes(g, k, 'X')
    ensures MediumChoice(g, u) == RandomChoice(g, u)
  {
    FirstCompletingIsFirst(g, 'O', 0);
    FirstCompletingIsFirst(g, 'X', 0);
  }

  /** Whatever the case, the medium move is an empty cell, and there is
      none only when the board is full. */
  lemma MediumChoiceIsBlank(g: Grid, u: real)
    requires 0.0 <= u < 1.0
    ensures var m := MediumChoice(g, u);
      && (m.None? <==> forall k :: 0 <= k < 9 ==> g[k] != Blank)
      && (m.Some? ==> InRange(m.value.row, m.value.col) && g[Index(m.value.row, m.value.col)] == Blank)
  {
    FirstCompletingIsFirst(g, 'O', 0);
    FirstCompletingIsFirst(g, 'X', 0);
    var m := MediumChoice(g, u);
    if FirstCompleting(g, 'O', 0).None? && FirstCompleting(g, 'X', 0).None? {
      assert m == RandomChoice(g, u);
    } else if m.None? {
      assert false;
    }
  }

  // ---------------------------------------------------------------------
  // Hard: depth-bounded minimax

  /** The result of minimax: a score and the cell that achieves it, or
      (-1, -1) when no cell was chosen. */
  datatype Choice = Choice(score: int, row: int, col: int)

  /** The score minimax starts from: Integer.MIN_VALUE for 'O', the
      maximizer, and Integer.MAX_VALUE for any other player. */
  function Sentinel(player: char): int {
    if player == 'O' then MinInt else MaxInt
  }

  function Opponent(player: char): char {
    if player == 'O' then 'X' else 'O'
  }

  /** s is strictly better than t for the player ('O' maximizes). */
  predicate Improves(player: char, s: int, t: int) {
    if player == 'O' then s > t else s < t
  }

  /** How the search decides that a node ends the game. minimax asks
      checkGameOver(), which reads the real game's fields: the search does
      not change them, so the answer `over` is the same at every node
      (GameFields). The intended test asks the node's own board whether a
      line is won or every cell is taken (NodeBoard). */
  datatype TerminalTest = GameFields(over: bool) | NodeBoard

  predicate Terminal(g: Grid, t: TerminalTest) {
    match t
    case GameFields(over) => over
    case NodeBoard => HasWinningLine(g) || CountFilled(g) == 9
  }

  /** minimax(depth, player) on the board g, with the terminal test t;
      the source's own search is t == GameFields(checkGameOver()). */
  function Search(g: Grid, depth: nat, player: char, t: TerminalTest): Choice
    decreases depth, 3
  {
    if Terminal(g, t) || depth == 0 then Choice(Evaluate(g), -1, -1)
    else ScanFrom(g, depth, player, t, 0, Choice(Sentinel(player), -1, -1))
  }

  /** The row-major loop of minimax from cell k on, with the best choice so far. */
  function ScanFrom(g: Grid, depth: nat, player: char, t: TerminalTest, k: nat, best: Choice): Choice
    requires depth >= 1 && k <= 9
    decreases depth, 2, 9 - k
  {
    if k == 9 then best
    else ScanFrom(g, depth, player, t, k + 1, Step(g, depth, player, t, k, best))
  }

  /** One turn of that loop: an empty cell whose score strictly improves on
      the best so far (> for 'O', < for 'X') becomes the best. */
  function Step(g: Grid, depth: nat, player: char, t: TerminalTest, k: nat, best: Choice): Choice
    requires depth >= 1 && k < 9
    decreases depth, 1
  {
    if g[k] == Blank && Improves(player, ChildScore(g, depth, player, t, k), best.score)
    then Choice(ChildScore(g, depth, player, t, k), k / 3, k % 3)
    else best
  }

  /** The score of placing `player` into cell k and letting the opponent
      search one ply less. */
  function ChildScore(g: Grid, depth: nat, player: char, t: TerminalTest, k: nat): int
    requires depth >= 1 && k < 9
    decreases depth, 0
  {
    Search(g[k := player], depth - 1, Opponent(player), t).score
  }

  /** `best` is what the loop of minimax holds after cells 0 .. k-1: either
      nothing chosen, because no empty cell beat the sentinel, or the
      earliest empty cell whose score no other scanned cell beats. */
  ghost predicate ChosenSoFar(g: Grid, depth: nat, player: char, t: TerminalTest, k: nat, best: Choice)
    requires depth >= 1 && k <= 9
  {
    if best.row == -1 then
      && best.col == -1 && best.score == Sentinel(player)
      && forall j :: 0 <= j < k && g[j] == Blank ==> !Improves(player, ChildScore(g, depth, player, t, j), Sentinel(player))
    else
      && InRange(best.row, best.col)
      && var i := Index(best.row, best.col);
      && i < k && g[i] == Blank
      && best.score == ChildScore(g, depth, player, t, i)
      && Improves(player, best.score, Sentinel(player))
      && (forall j :: 0 <= j < i && g[j] == Blank ==> Improves(player, best.score, ChildScore(g, depth, player, t, j)))
      && (forall j :: 0 <= j < k && g[j] == Blank ==> !Improves(player, ChildScore(g, depth, player, t, j), best.score))
  }

  lemma StepKeepsChosen(g: Grid, depth: nat, player: char, t: TerminalTest, k: nat, best: Choice)
    requires depth >= 1 && k < 9
    requires ChosenSoFar(g, depth, player, t, k, best)
    ensures ChosenSoFar(g, depth, player, t, k + 1, Step(g, depth, player, t, k, best))
  {
    var next := Step(g, depth, player, t, k, best);
    if next != best {
      assert Index(k / 3, k % 3) == k;
      var s := ChildScore(g, depth, player, t, k);
      forall j | 0 <= j < k && g[j] == Blank
        ensures Improves(player, s, ChildScore(g, depth, player, t, j))
      {
      }
    }
  }

  lemma {:induction false} ScanFromChooses(g: Grid, depth: nat, player: char, t: TerminalTest, k: nat, best: Choice)
    requires depth >= 1 && k <= 9
    requires ChosenSoFar(g, depth, player, t, k, best)
    ensures ChosenSoFar(g, depth, player, t, 9, ScanFrom(g, depth, player, t, k, best))
    decreases 9 - k
  {
    if k < 9 {
      var next := Step(g, depth, player, t, k, best);
      StepKeepsChosen(g, depth, player, t, k, best);
      ScanFromChooses(g, depth, player, t, k + 1, next);
    }
  }

  /** minimax with depth left and the game not over returns the earliest
      empty cell (row-major) with the best score among its children: ties
      keep the earlier cell because of the strict > and <. It returns
      (sentinel, -1, -1) exactly when no child beats the sentinel. */
  lemma SearchChoosesFirstBest(g: Grid, depth: nat, player: char, t: TerminalTest)
    requires depth >= 1 && !Terminal(g, t)
    ensures var c := Search(g, depth, player, t);
      c.row == -1 <==> forall j :: 0 <= j < 9 && g[j] == Blank ==> !Improves(player, ChildScore(g, depth, player, t, j), Sentinel(player))
    ensures var c := Search(g, depth, player, t);
      c.row == -1 ==> c.col == -1 && c.score == Sentinel(player)
    ensures var c := Search(g, depth, player, t);
      c.row != -1 ==>
        && InRange(c.row, c.col)
        && g[Index(c.row, c.col)] == Blank
        && c.score == ChildScore(g, depth, player, t, Index(c.row, c.col))
        && (forall j :: 0 <= j < Index(c.row, c.col) && g[j] == Blank ==> Improves(player, c.score, ChildScore(g, depth, player, t, j)))
        && (forall j :: 0 <= j < 9 && g[j] == Blank ==> !Improves(player, ChildScore(g, depth, player, t, j), c.score))
  {
    ScanFromChooses(g, depth, player, t, 0, Choice(Sentinel(player), -1, -1));
  }

  /** The score of minimax at one ply above the static evaluation is an
      evaluator score or the player's sentinel. */
  lemma {:induction false} ScanFromDepthOneScores(g: Grid, player: char, t: TerminalTest, k: nat, best: Choice)
    requires k <= 9
    requires best.score in {10, -10, 0, Sentinel(player)}
    ensures ScanFrom(g, 1, player, t, k, best).score in {10, -10, 0, Sentinel(player)}
    decreases 9 - k
  {
    if k < 9 {
      ScanFromDepthOneScores(g, player, t, k + 1, Step(g, 1, player, t, k, best));
    }
  }

  /** makeHardMove, which runs minimax(2, 'O') on an open game with an empty
      cell, always returns an empty cell: every reply of 'X' scores above
      Integer.MIN_VALUE. */
  lemma HardChoiceIsBlank(g: Grid)
    requires exists k :: 0 <= k < 9 && g[k] == Blank
    ensures var c := Search(g, 2, 'O', GameFields(false));
      InRange(c.row, c.col) && g[Index(c.row, c.col)] == Blank
  {
    SearchChoosesFirstBest(g, 2, 'O', GameFields(false));
    var k :| 0 <= k < 9 && g[k] == Blank;
    var h := g[k := 'O'];
    ScanFromDepthOneScores(h, 'X', GameFields(false), 0, Choice(Sentinel('X'), -1, -1));
    assert Improves('O', ChildScore(g, 2, 'O', GameFields(false), k), Sentinel('O'));
  }

  // ---------------------------------------------------------------------
  // The terminal test of minimax

  /** On a board with no won line, marking an empty cell with s scores
      +10 or -10 (as s is 'O' or not) when it makes a line through that
      cell, and 0 otherwise. */
  lemma EvaluateAfterMark(g: Grid, row: int, col: int, s: char)
    requires InRange(row, col) && g[Index(row, col)] == Blank && s != Blank
    requires !HasWinningLine(g)
    ensures var h := g[Index(row, col) := s];
      Evaluate(h) == if !CheckWinner(h, row, col) then 0 else if s == 'O' then 10 else -10
  {
    var k := Index(row, col);
    var h := g[k := s];
    LocalCheckAgreesWithFullScan(g, row, col, s);
    EvaluateMeaning(h);
    if CheckWinner(h, row, col) {
      HasWinningLineInScanOrder(h);
      FirstHoldingIsFirst(h, 0);
      var l := ScanLine(FirstHolding(h, 0).value);
      if !OnLine(k, l) {
        assert h[l.a] == g[l.a] && h[l.b] == g[l.b] && h[l.c] == g[l.c];
        HasWinningLineInScanOrder(g);
        assert false;
      }
      assert h[l.a] == s;
    }
  }

  /** When an empty cell scores v, v beats the sentinel and no empty cell
      beats v, minimax scores v. */
  lemma SearchScoreIsBest(g: Grid, depth: nat, player: char, t: TerminalTest, k: nat, v: int)
    requires depth >= 1 && !Terminal(g, t)
    requires k < 9 && g[k] == Blank && ChildScore(g, depth, player, t, k) == v
    requires Improves(player, v, Sentinel(player))
    requires forall j :: 0 <= j < 9 && g[j] == Blank ==> !Improves(player, ChildScore(g, depth, player, t, j), v)
    ensures Search(g, depth, player, t).score == v
  {
    SearchChoosesFirstBest(g, depth, player, t);
  }

  /** Cell by cell, g is the open position XX_ / OO_ / X__, with 'O' to
      move: O wins at once at (1, 2). */
  predicate IsMissedWinBoard(g: Grid) {
    && g[0] == 'X' && g[1] == 'X' && g[2] == Blank
    && g[3] == 'O' && g[4] == 'O' && g[5] == Blank
    && g[6] == 'X' && g[7] == Blank && g[8] == Blank
  }

  /** The empty cells of that position. */
  lemma MissedWinBlank(g: Grid, j: int)
    requires IsMissedWinBoard(g) && 0 <= j < 9 && g[j] == Blank
    ensures j == 2 || j == 5 || j == 7 || j == 8
  {
  }

  /** No line is won; O at (0, 2) completes no line; O at (1, 2)
      completes the middle row. */
  lemma MissedWinTries(g: Grid)
    requires IsMissedWinBoard(g)
    ensures !HasWinningLine(g)
    ensures !Completes(g, 2, 'O') && Completes(g, 5, 'O')
  {
    NoLineOnBoard(g);
    assert 5 / 3 == 1 && 5 % 3 == 2 && 2 / 3 == 0 && 2 % 3 == 2;
    var h2 := g[2 := 'O'];
    assert h2[0] == 'X' && h2[2] == 'O' && h2[5] == Blank && h2[6] == 'X';
    var h5 := g[5 := 'O'];
    assert h5[3] == 'O' && h5[4] == 'O' && h5[5] == 'O';
  }

  /** The source's search on that position: after O's winning move (1, 2)
      it does not stop, since the real game is still open, and X's reply
      (0, 2) completes the top row, which evaluateBoard scans first; so the
      win scores -10, as do (2, 1) and (2, 2), while (0, 2) scores 0. */
  lemma MissedWinScores(g: Grid)
    requires IsMissedWinBoard(g)
    ensures ChildScore(g, 2, 'O', GameFields(false), 2) == 0
    ensures ChildScore(g, 2, 'O', GameFields(false), 5) == -10
    ensures ChildScore(g, 2, 'O', GameFields(false), 7) == -10
    ensures ChildScore(g, 2, 'O', GameFields(false), 8) == -10
  {
    var h := g[2 := 'O'];
    NoLineOnBoard(h);
    forall j | 0 <= j < 9 && h[j] == Blank
      ensures ChildScore(h, 1, 'X', GameFields(false), j) == 0
    {
      assert j == 5 || j == 7 || j == 8;
      assert Index(j / 3, j % 3) == j;
      EvaluateAfterMark(h, j / 3, j % 3, 'X');
    }
    SearchScoreIsBest(h, 1, 'X', GameFields(false), 5, 0);
    MissedWinReply(g, 5);
    MissedWinReply(g, 7);
    MissedWinReply(g, 8);
  }

  /** After O at k, X's reply (0, 2) completes the top row and scores -10. */
  lemma MissedWinReply(g: Grid, k: nat)
    requires IsMissedWinBoard(g) && (k == 5 || k == 7 || k == 8)
    ensures ChildScore(g, 2, 'O', GameFields(false), k) == -10
  {
    var h := g[k := 'O'];
    var w := h[2 := 'X'];
    assert w[0] == 'X' && w[1] == 'X' && w[2] == 'X';
    assert Holds(w, ScanLine(0));
    assert Evaluate(w) == -10;
    forall j | 0 <= j < 9 && h[j] == Blank
      ensures !Improves('X', ChildScore(h, 1, 'X', GameFields(false), j), -10)
    {
    }
    SearchScoreIsBest(h, 1, 'X', GameFields(false), 2, -10);
  }

  /** So the source's hard move on that position is (0, 2), although
      (1, 2) wins at once. */
  lemma HardMissesWin(g: Grid)
    requires IsMissedWinBoard(g)
    ensures !HasWinningLine(g) && Completes(g, 5, 'O')
    ensures Search(g, 2, 'O', GameFields(false)) == Choice(0, 0, 2)
  {
    MissedWinTries(g);
    MissedWinScores(g);
    SearchChoosesFirstBest(g, 2, 'O', GameFields(false));
    var c := Search(g, 2, 'O', GameFields(false));
    assert c.row != -1;
    var i := Index(c.row, c.col);
    assert i == 2 by {
      MissedWinBlank(g, i);
    }
    assert c.row == 0 && c.col == 2;
  }

  /** With the intended test, X's reply in an empty cell of a board
      without a won line scores 0 or -10: X cannot hand O a line. */
  lemma IntendedReplyScore(h: Grid, j: nat)
    requires j < 9 && h[j] == Blank && !HasWinningLine(h)
    ensures ChildScore(h, 1, 'X', NodeBoard, j) <= 0
  {
    assert Index(j / 3, j % 3) == j;
    EvaluateAfterMark(h, j / 3, j % 3, 'X');
  }

  /** With the intended test, O's move in an empty cell of an open board
      scores 10 when it completes a line, and at most 0 otherwise. */
  lemma IntendedMoveScore(g: Grid, k: nat)
    requires k < 9 && g[k] == Blank && !HasWinningLine(g)
    ensures Completes(g, k, 'O') ==> ChildScore(g, 2, 'O', NodeBoard, k) == 10
    ensures !Completes(g, k, 'O') ==> ChildScore(g, 2, 'O', NodeBoard, k) <= 0
  {
    var h := g[k := 'O'];
    assert Index(k / 3, k % 3) == k;
    EvaluateAfterMark(g, k / 3, k % 3, 'O');
    LocalCheckAgreesWithFullScan(g, k / 3, k % 3, 'O');
    if !Completes(g, k, 'O') && CountFilled(h) != 9 {
      FullBoard(h);
      var j :| 0 <= j < 9 && h[j] == Blank;
      IntendedReplyScore(h, j);
      SearchChoosesFirstBest(h, 1, 'X', NodeBoard);
      var c := Search(h, 1, 'X', NodeBoard);
      IntendedReplyScore(h, Index(c.row, c.col));
    }
  }

  /** With the terminal test on the node's own board, the hard move on an
      open board where O can complete a line scores 10 and is the first
      such cell in row-major order. */
  lemma IntendedHardFindsFirstWin(g: Grid)
    requires !HasWinningLine(g)
    requires exists k :: 0 <= k < 9 && Completes(g, k, 'O')
    ensures var c := Search(g, 2, 'O', NodeBoard);
      && c.score == 10 && InRange(c.row, c.col)
      && Completes(g, Index(c.row, c.col), 'O')
      && forall j :: 0 <= j < Index(c.row, c.col) ==> !Completes(g, j, 'O')
  {
    var k :| 0 <= k < 9 && Completes(g, k, 'O');
    assert !Terminal(g, NodeBoard) by {
      FullBoard(g);
    }
    IntendedMoveScore(g, k);
    SearchChoosesFirstBest(g, 2, 'O', NodeBoard);
    var c := Search(g, 2, 'O', NodeBoard);
    var i := Index(c.row, c.col);
    IntendedMoveScore(g, i);
    forall j | 0 <= j < i
      ensures !Completes(g, j, 'O')
    {
      if g[j] == Blank {
        IntendedMoveScore(g, j);
      }
    }
  }

  /** The first completing cell is the one FirstCompleting finds. */
  lemma FirstCompletingIsUnique(g: Grid, s: char, row: int, col: int)
    requires InRange(row, col) && Completes(g, Index(row, col), s)
    requires forall j :: 0 <= j < Index(row, col) ==> !Completes(g, j, s)
    ensures FirstCompleting(g, s, 0) == Some(Move(row, col))
  {
    FirstCompletingIsFirst(g, s, 0);
    var m := FirstCompleting(g, s, 0).value;
    assert Index(m.row, m.col) == Index(row, col);
    CellOfIndex(m.row, m.col);
    CellOfIndex(row, col);
  }

  /** So that hard move is the cell the medium move plays, whatever the draw u. */
  lemma IntendedHardTakesFirstWin(g: Grid, u: real)
    requires 0.0 <= u < 1.0
    requires !HasWinningLine(g)
    requires exists k :: 0 <= k < 9 && Completes(g, k, 'O')
    ensures var c := Search(g, 2, 'O', NodeBoard);
      && c.score == 10
      && Some(Move(c.row, c.col)) == FirstCompleting(g, 'O', 0)
      && Some(Move(c.row, c.col)) == MediumChoice(g, u)
  {
    IntendedHardFindsFirstWin(g);
    var c := Search(g, 2, 'O', NodeBoard);
    FirstCompletingIsUnique(g, 'O', c.row, c.col);
  }

  /** On that position the intended search plays the win (1, 2). */
  lemma IntendedHardTakesMissedWin(g: Grid)
    requires IsMissedWinBoard(g)
    ensures Search(g, 2, 'O', NodeBoard) == Choice(10, 1, 2)
  {
    MissedWinTries(g);
    IntendedHardFindsFirstWin(g);
    var c := Search(g, 2, 'O', NodeBoard);
    var i := Index(c.row, c.col);
    MissedWinBlank(g, i);
    if i > 5 {
      assert false;
    }
  }
}
