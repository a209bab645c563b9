/** The rules of tic-tac-toe as the engine applies them: the board, the
    table of winning lines, the test for a completed line, and the scan that
    turns a board into a game status. Everything here is a pure function of
    the board. */
module Rules {

  datatype Option<T> = None | Some(value: T)

  datatype Player = X | O

  /** A board cell: empty or carrying one player's mark. */
  datatype Cell = Empty | Mark(player: Player)

  /** A board position, numbered row by row from the top-left corner. */
  type Index = i: nat | i < 9

  /** The board always has exactly nine cells. */
  type Board = b: seq<Cell> | |b| == 9
    witness [Empty, Empty, Empty, Empty, Empty, Empty, Empty, Empty, Empty]

  /** Three board positions; a win when all three carry the same mark. */
  datatype Line = Line(a: Index, b: Index, c: Index)

  /** The fixed table of winning lines, in the order the scan visits them:
      the three rows, the three columns, then the two diagonals. */
  const WinningConditions: seq<Line> := [
    Line(0, 1, 2),
    Line(3, 4, 5),
    Line(6, 7, 8),
    Line(0, 3, 6),
    Line(1, 4, 7),
    Line(2, 5, 8),
    Line(0, 4, 8),
    Line(2, 4, 6)
  ]

  /** The result of examining a board. A win carries the winner and the
      line that completed it. */
  datatype Status = InProgress | Won(winner: Player, line: Line) | Draw

  /** The player whose turn follows `p`'s. */
  function Other(p: Player): (q: Player)
    ensures q != p
  {
    if p == X then O else X
  }

  /** All three cells of `l` carry `p`'s mark. */
  predicate OwnedBy(board: Board, l: Line, p: Player) {
    board[l.a] == Mark(p) && board[l.b] == Mark(p) && board[l.c] == Mark(p)
  }

  /** The test applied to one line: skip it if any of its cells is empty,
      otherwise it is won when all three cells are equal. */
  function LineWinner(board: Board, l: Line): (r: Option<Player>)
    ensures forall p :: r == Some(p) <==> OwnedBy(board, l, p)
  {
    var a, b, c := board[l.a], board[l.b], board[l.c];
    if a == Empty || b == Empty || c == Empty then None
    else if a == b && b == c then Some(a.player)
    else None
  }

  predicate Completed(board: Board, l: Line) {
    LineWinner(board, l).Some?
  }

  /** Line number `k` of the table is complete and no earlier line is. */
  predicate FirstComplete(board: Board, k: nat) {
    && k < |WinningConditions|
    && Completed(board, WinningConditions[k])
    && forall j :: 0 <= j < k ==> !Completed(board, WinningConditions[j])
  }

  predicate NoLineComplete(board: Board) {
    forall k :: 0 <= k < |WinningConditions| ==> !Completed(board, WinningConditions[k])
  }

  /** The scan over the table from line `k` on: the index of the first
      complete line, if there is one. */
  function FirstWinFrom(board: Board, k: nat): (r: Option<nat>)
    requires k <= |WinningConditions|
    ensures r.Some? ==> k <= r.value < |WinningConditions|
    ensures r.Some? ==> Completed(board, WinningConditions[r.value])
    ensures forall j :: k <= j < |WinningConditions| && (r.None? || j < r.value) ==>
              !Completed(board, WinningConditions[j])
    decreases |WinningConditions| - k
  {
    if k == |WinningConditions| then None
    else if Completed(board, WinningConditions[k]) then Some(k)
    else FirstWinFrom(board, k + 1)
  }

  /** The status of a board: the first complete line in table order wins;
      with no complete line, a board without an empty cell is a draw. */
  function Evaluate(board: Board): (r: Status)
    ensures r.Won? ==> r.line in WinningConditions && OwnedBy(board, r.line, r.winner)
    ensures r.Won? <==> !NoLineComplete(board)
    ensures r == Draw <==> NoLineComplete(board) && Empty !in board
    ensures r == InProgress <==> NoLineComplete(board) && Empty in board
  {
    match FirstWinFrom(board, 0)
    case Some(k) => Won(LineWinner(board, WinningConditions[k]).value, WinningConditions[k])
    case None => if Empty in board then InProgress else Draw
  }

  /** First match wins: when line `k` is the first complete line of the
      table, it is the line reported, whatever later lines are complete. */
  lemma EvaluateFirstMatch(board: Board, k: nat)
    requires FirstComplete(board, k)
    ensures Evaluate(board) == Won(board[WinningConditions[k].a].player, WinningConditions[k])
  {
  }

  /** A complete line takes precedence over a full board: a board with any
      complete line is reported as won, never as a draw, and the reported
      line is no later in the table than any complete line. */
  lemma WinBeatsDraw(board: Board, k: nat)
    requires k < |WinningConditions| && Completed(board, WinningConditions[k])
    ensures Evaluate(board).Won?
    ensures exists j :: 0 <= j <= k && FirstComplete(board, j) &&
              Evaluate(board).line == WinningConditions[j]
  {
  }

  // An independent description of the winning lines, by grid geometry.

  function Row(i: Index): nat { i / 3 }
  function Col(i: Index): nat { i % 3 }

  /** Three cells in increasing order, evenly spaced along a row, a column,
      the main diagonal or the anti-diagonal of the 3-by-3 grid. */
  predicate Straight(l: Line) {
    var dr, dc := Row(l.b) - Row(l.a), Col(l.b) - Col(l.a);
    && l.a < l.b < l.c
    && Row(l.c) - Row(l.b) == dr && Col(l.c) - Col(l.b) == dc
    && ((dr == 0 && dc == 1) || (dr == 1 && dc == 0) || (dr == 1 && dc == 1) || (dr == 1 && dc == -1))
  }

  /** The table holds exactly the straight lines of the grid, each once,
      rows first, then columns, then diagonals. */
  lemma WinningConditionsAreStraightLines()
    ensures forall l: Line :: l in WinningConditions <==> Straight(l)
    ensures forall j, k :: 0 <= j < k < |WinningConditions| ==> WinningConditions[j] != WinningConditions[k]
    ensures forall k :: 0 <= k < 3 ==> Row(WinningConditions[k].a) == Row(WinningConditions[k].c)
    ensures forall k :: 3 <= k < 6 ==> Col(WinningConditions[k].a) == Col(WinningConditions[k].c)
    ensures forall k :: 6 <= k < 8 ==> Row(WinningConditions[k].a) != Row(WinningConditions[k].c) &&
                                       Col(WinningConditions[k].a) != Col(WinningConditions[k].c)
  {
    forall l: Line | Straight(l) ensures l in WinningConditions {
      StraightIsListed(l);
    }
  }

  /** A straight line is determined by its first cell and its direction,
      which leaves only the table's eight. */
  lemma StraightIsListed(l: Line)
    requires Straight(l)
    ensures l in WinningConditions
  {
    assert l.a == 3 * Row(l.a) + Col(l.a);
    assert l.b == 3 * Row(l.b) + Col(l.b);
    assert l.c == 3 * Row(l.c) + Col(l.c);
  }
}
