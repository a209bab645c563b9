/** The game engine: the three pieces of state the page keeps (the board,
    the player to move, whether the game is still running), the transitions
    that change them, and the invariants those transitions keep. */
module Engine {
  import opened Rules

  /** A snapshot of the engine's whole state. */
  datatype Snapshot = Snapshot(board: Board, player: Player, active: bool)

  /** What a click reports: a rejected click changes nothing; an accepted
      one reports the status of the board after the move. */
  datatype Outcome = Rejected | Accepted(status: Status)

  const EmptyBoard: Board := [Empty, Empty, Empty, Empty, Empty, Empty, Empty, Empty, Empty]

  /** The state on page load and after a restart. */
  const Initial: Snapshot := Snapshot(EmptyBoard, X, true)

  /** A click on cell `i` is played only when the cell is free and the game
      is still running. */
  predicate Accepts(s: Snapshot, i: Index) {
    s.board[i] == Empty && s.active
  }

  /** One click on cell `i`: mark the cell for the player to move, then
      either end the game (win or draw) or pass the turn. */
  function Click(s: Snapshot, i: Index): Snapshot {
    if !Accepts(s, i) then s
    else
      var board := s.board[i := Mark(s.player)];
      if Evaluate(board) == InProgress then Snapshot(board, Other(s.player), true)
      else Snapshot(board, s.player, false)
  }

  function OutcomeOf(s: Snapshot, i: Index): Outcome {
    if Accepts(s, i) then Accepted(Evaluate(Click(s, i).board)) else Rejected
  }

  /** The state after a sequence of clicks. */
  function Run(s: Snapshot, moves: seq<Index>): Snapshot
    decreases |moves|
  {
    if moves == [] then s else Run(Click(s, moves[0]), moves[1..])
  }

  /** Running two sequences of clicks one after the other is running their
      concatenation. */
  lemma {:induction false} RunAppend(s: Snapshot, a: seq<Index>, b: seq<Index>)
    ensures Run(s, a + b) == Run(Run(s, a), b)
    decreases |a|
  {
    if a == [] {
      assert a + b == b;
    } else {
      assert (a + b)[1..] == a[1..] + b;
      RunAppend(Click(s, a[0]), a[1..], b);
    }
  }

  /** How many of the clicks in `moves` are accepted. */
  function AcceptedCount(s: Snapshot, moves: seq<Index>): nat
    decreases |moves|
  {
    if moves == [] then 0
    else (if Accepts(s, moves[0]) then 1 else 0) + AcceptedCount(Click(s, moves[0]), moves[1..])
  }

  // Counting marks

  function Count(b: seq<Cell>, c: Cell): (n: nat)
    ensures n <= |b|
    ensures n == 0 <==> c !in b
    ensures n == |b| <==> forall k :: 0 <= k < |b| ==> b[k] == c
  {
    if b == [] then 0 else (if b[0] == c then 1 else 0) + Count(b[1..], c)
  }

  /** The number of non-empty cells. */
  function Filled(b: seq<Cell>): nat {
    |b| - Count(b, Empty)
  }

  /** Overwriting one cell changes each count by what left and what came. */
  lemma {:induction false} CountUpdate(b: seq<Cell>, i: nat, v: Cell, c: Cell)
    requires i < |b|
    ensures Count(b[i := v], c) + (if b[i] == c then 1 else 0) == Count(b, c) + (if v == c then 1 else 0)
  {
    if i > 0 {
      assert b[i := v][1..] == b[1..][i - 1 := v];
      CountUpdate(b[1..], i - 1, v, c);
    } else {
      assert b[i := v][1..] == b[1..];
    }
  }

  // The invariant of every reachable state

  /** The game is running exactly when the board is still in progress. */
  predicate Consistent(s: Snapshot) {
    s.active <==> Evaluate(s.board) == InProgress
  }

  /** Turns alternate strictly, X first: X has made as many moves as O when
      X is to move, and one more when O is to move. When the game is over
      the player who made the last move is still recorded, so the rule is
      the other way round. */
  predicate Balanced(s: Snapshot) {
    Count(s.board, Mark(X)) == Count(s.board, Mark(O)) + (if (s.player == O) == s.active then 1 else 0)
  }

  predicate Invariant(s: Snapshot) {
    Consistent(s) && Balanced(s)
  }

  /** The initial state: nine empty cells, X to move, game running. */
  lemma InitialState()
    ensures forall i: Index :: Initial.board[i] == Empty
    ensures Filled(Initial.board) == 0
    ensures Evaluate(Initial.board) == InProgress
    ensures Invariant(Initial)
  {
    InitialBoardFree();
    InitialInProgress();
    InitialBalanced();
  }

  lemma InitialBoardFree()
    ensures forall i: Index :: Initial.board[i] == Empty
    ensures Filled(Initial.board) == 0
  {
  }

  lemma InitialInProgress()
    ensures Evaluate(Initial.board) == InProgress
  {
  }

  lemma InitialBalanced()
    ensures Balanced(Initial)
  {
  }

  /** A rejected click (occupied cell or finished game) leaves the board,
      the player to move and the running flag as they were. */
  lemma RejectedIsNoop(s: Snapshot, i: Index)
    requires s.board[i] != Empty || !s.active
    ensures Click(s, i) == s && OutcomeOf(s, i) == Rejected
  {
  }

  /** An accepted click writes the mover's mark into exactly the chosen
      cell, leaves the other eight cells alone, and so fills one more cell. */
  lemma AcceptedMarksOneCell(s: Snapshot, i: Index)
    requires Accepts(s, i)
    ensures Click(s, i).board[i] == Mark(s.player)
    ensures forall j: Index :: j != i ==> Click(s, i).board[j] == s.board[j]
    ensures Filled(Click(s, i).board) == Filled(s.board) + 1
  {
    CountUpdate(s.board, i, Mark(s.player), Empty);
  }

  /** A filled cell keeps its mark until the next restart. */
  lemma MarksAreKept(s: Snapshot, i: Index, j: Index)
    requires s.board[j] != Empty
    ensures Click(s, i).board[j] == s.board[j]
  {
  }

  /** On a win, the game stops, the turn does not pass and the reported line
      is one of the table, from any state. */
  lemma WinEndsGame(s: Snapshot, i: Index)
    requires Accepts(s, i)
    requires OutcomeOf(s, i).status.Won?
    ensures !Click(s, i).active && Click(s, i).player == s.player
    ensures OutcomeOf(s, i).status.line in WinningConditions
  {
  }

  /** On a consistent state the board had no complete line before the move,
      so the winning line runs through the cell just marked and the reported
      winner is the player who just moved. */
  lemma WinnerIsMover(s: Snapshot, i: Index)
    requires Consistent(s) && Accepts(s, i)
    requires OutcomeOf(s, i).status.Won?
    ensures OutcomeOf(s, i).status.winner == s.player
  {
  }

  /** With no complete line and no empty cell, the click ends the game in a
      draw. */
  lemma DrawEndsGame(s: Snapshot, i: Index)
    requires Accepts(s, i)
    requires NoLineComplete(Click(s, i).board) && Empty !in Click(s, i).board
    ensures OutcomeOf(s, i) == Accepted(Draw)
    ensures !Click(s, i).active && Click(s, i).player == s.player
  {
  }

  /** When the move neither wins nor fills the board, the game goes on and
      the turn passes to the other player. */
  lemma MovePassesTurn(s: Snapshot, i: Index)
    requires Accepts(s, i)
    requires NoLineComplete(Click(s, i).board) && Empty in Click(s, i).board
    ensures OutcomeOf(s, i) == Accepted(InProgress)
    ensures Click(s, i).active && Click(s, i).player == Other(s.player)
  {
  }

  /** Every click keeps the invariant. */
  lemma ClickKeepsInvariant(s: Snapshot, i: Index)
    requires Invariant(s)
    ensures Invariant(Click(s, i))
  {
    if Accepts(s, i) {
      CountUpdate(s.board, i, Mark(s.player), Mark(X));
      CountUpdate(s.board, i, Mark(s.player), Mark(O));
    }
  }

  /** Every state reached from `s` by clicks keeps the invariant. */
  lemma {:induction false} RunKeepsInvariant(s: Snapshot, moves: seq<Index>)
    requires Invariant(s)
    ensures Invariant(Run(s, moves))
    decreases |moves|
  {
    if moves != [] {
      ClickKeepsInvariant(s, moves[0]);
      RunKeepsInvariant(Click(s, moves[0]), moves[1..]);
    }
  }

  /** Each accepted click fills exactly one cell; rejected ones fill none. */
  lemma {:induction false} RunFilled(s: Snapshot, moves: seq<Index>)
    ensures Filled(Run(s, moves).board) == Filled(s.board) + AcceptedCount(s, moves)
    decreases |moves|
  {
    if moves != [] {
      if Accepts(s, moves[0]) {
        AcceptedMarksOneCell(s, moves[0]);
      }
      RunFilled(Click(s, moves[0]), moves[1..]);
    }
  }

  /** From the initial state, N accepted clicks leave exactly N filled cells,
      and the state reached satisfies the invariant. */
  lemma ValidMovesFillCells(moves: seq<Index>)
    requires AcceptedCount(Initial, moves) == |moves|
    ensures Filled(Run(Initial, moves).board) == |moves|
    ensures Invariant(Run(Initial, moves))
  {
    InitialState();
    RunFilled(Initial, moves);
    RunKeepsInvariant(Initial, moves);
  }

  /** The engine object. The fields are the page's module-level state. */
  class TicTacToe {
    var gameActive: bool
    var currentPlayer: Player
    var gameState: array<Cell>

    ghost predicate Valid()
      reads this
    {
      gameState.Length == 9
    }

    /** The engine's state as a value. */
    function State(): Snapshot
      reads this, gameState
      requires Valid()
    {
      Snapshot(gameState[..], currentPlayer, gameActive)
    }

    /** The state on page load: game running, X to move, nine empty cells. */
    constructor ()
      ensures Valid() && fresh(gameState)
      ensures State() == Initial
      ensures Invariant(State())
    {
      gameActive := true;
      currentPlayer := X;
      gameState := new Cell[9](_ => Empty);
      new;
      assert gameState[..] == EmptyBoard;
      InitialState();
    }

    /** A click on cell `i`: ignored when the cell is taken or the game is
        over; otherwise the move is played and the result checked. */
    method HandleCellClick(i: Index) returns (o: Outcome)
      requires Valid()
      modifies this, gameState
      ensures Valid() && gameState == old(gameState)
      ensures State() == Click(old(State()), i)
      ensures o == OutcomeOf(old(State()), i)
      ensures Invariant(old(State())) ==> Invariant(State())
    {
      ghost var before := State();
      if Invariant(before) {
        ClickKeepsInvariant(before, i);
      }
      if gameState[i] != Empty || !gameActive {
        return Rejected;
      }
      HandleCellPlayed(i);
      var status := HandleResultValidation();
      o := Accepted(status);
    }

    /** Writes the mark of the player to move into cell `i`. */
    method HandleCellPlayed(i: Index)
      requires Valid()
      modifies gameState
      ensures Valid()
      ensures gameState[..] == old(gameState[..])[i := Mark(currentPlayer)]
    {
      gameState[i] := Mark(currentPlayer);
    }

    /** Scans the winning lines in table order and stops at the first
        complete one; a win or a full board ends the game, anything else
        passes the turn. */
    method HandleResultValidation() returns (status: Status)
      requires Valid()
      modifies this
      ensures Valid() && gameState == old(gameState)
      ensures status == Evaluate(gameState[..])
      ensures gameActive == (status == InProgress && old(gameActive))
      ensures currentPlayer == if status == InProgress then Other(old(currentPlayer)) else old(currentPlayer)
    {
      var roundWon := false;
      var winner := X;
      var winningCombo := WinningConditions[0];
      ghost var found := 0;

      for i := 0 to |WinningConditions|
        invariant !roundWon
        invariant forall j :: 0 <= j < i ==> !Completed(gameState[..], WinningConditions[j])
      {
        var winCondition := WinningConditions[i];
        var a := gameState[winCondition.a];
        var b := gameState[winCondition.b];
        var c := gameState[winCondition.c];

        if a == Empty || b == Empty || c == Empty {
          continue;
        }
        if a == b && b == c {
          roundWon := true;
          winner := a.player;
          winningCombo := winCondition;
          found := i;
          break;
        }
      }

      if roundWon {
        gameActive := false;
        EvaluateFirstMatch(gameState[..], found);
        return Won(winner, winningCombo);
      }

      var roundDraw := Empty !in gameState[..];
      if roundDraw {
        gameActive := false;
        return Draw;
      }

      HandlePlayerChange();
      status := InProgress;
    }

    /** Passes the turn to the other player. */
    method HandlePlayerChange()
      modifies this`currentPlayer
      ensures currentPlayer == Other(old(currentPlayer))
    {
      currentPlayer := if currentPlayer == X then O else X;
    }

    /** Restores the initial state from any state: a fresh board of nine
        empty cells, X to move, game running. */
    method HandleRestartGame()
      modifies this
      ensures Valid() && fresh(gameState)
      ensures State() == Initial
      ensures Invariant(State())
    {
      gameActive := true;
      currentPlayer := X;
      gameState := new Cell[9](_ => Empty);
      assert gameState[..] == EmptyBoard;
      assert State() == Initial;
      InitialState();
    }
  }
}
