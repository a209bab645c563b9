/** Concrete games played through the engine's transition from the initial
    state, one click at a time. Each step is its own small lemma; the
    scenario lemmas chain them through `Run`. */
module Scenarios {
  import opened Rules
  import opened Engine

  const x := Mark(X)
  const o := Mark(O)
  const e := Empty

  // X takes the top row while O plays the middle row.
  const TopRow1 := Snapshot([x, e, e, e, e, e, e, e, e], O, true)
  const TopRow2 := Snapshot([x, e, e, o, e, e, e, e, e], X, true)
  const TopRow3 := Snapshot([x, x, e, o, e, e, e, e, e], O, true)
  const TopRow4 := Snapshot([x, x, e, o, o, e, e, e, e], X, true)
  const TopRow5 := Snapshot([x, x, x, o, o, e, e, e, e], X, false)

  lemma TopRowStep1() ensures Click(Initial, 0) == TopRow1 {}
  lemma TopRowStep2() ensures Click(TopRow1, 3) == TopRow2 {}
  lemma TopRowStep3() ensures Click(TopRow2, 1) == TopRow3 {}
  lemma TopRowStep4() ensures Click(TopRow3, 4) == TopRow4 {}
  lemma TopRowStep5()
    ensures Click(TopRow4, 2) == TopRow5
    ensures OutcomeOf(TopRow4, 2) == Accepted(Won(X, Line(0, 1, 2)))
  {
  }

  /** X wins on the top row after five moves; the game is then over, so a
      click on the free cell 5 changes nothing. */
  lemma TopRowWin()
    ensures OutcomeOf(Run(Initial, [0, 3, 1, 4]), 2) == Accepted(Won(X, Line(0, 1, 2)))
    ensures Run(Initial, [0, 3, 1, 4, 2]) == TopRow5
    ensures TopRow5.board[5] == Empty
    ensures Click(TopRow5, 5) == TopRow5 && OutcomeOf(TopRow5, 5) == Rejected
  {
    TopRowStep1(); TopRowStep2(); TopRowStep3(); TopRowStep4(); TopRowStep5();
    assert [0, 3, 1, 4, 2][1..] == [3, 1, 4, 2];
    assert [0, 3, 1, 4][1..] == [3, 1, 4];
    assert [3, 1, 4, 2][1..] == [1, 4, 2];
    assert [3, 1, 4][1..] == [1, 4];
    assert [1, 4, 2][1..] == [4, 2];
    assert [1, 4][1..] == [4];
    assert [4, 2][1..] == [2];
  }

  /** A second click on the cell X has just taken is ignored: the cell keeps
      X's mark and O is still to move. */
  lemma OccupiedCellIgnored()
    ensures OutcomeOf(TopRow1, 0) == Rejected
    ensures Run(Initial, [0, 0]) == TopRow1
  {
    TopRowStep1();
    assert [0, 0][1..] == [0];
  }

  // Nine alternating moves that complete no line.
  const Draw1 := Snapshot([x, e, e, e, e, e, e, e, e], O, true)
  const Draw2 := Snapshot([x, o, e, e, e, e, e, e, e], X, true)
  const Draw3 := Snapshot([x, o, x, e, e, e, e, e, e], O, true)
  const Draw4 := Snapshot([x, o, x, e, o, e, e, e, e], X, true)
  const Draw5 := Snapshot([x, o, x, x, o, e, e, e, e], O, true)
  const Draw6 := Snapshot([x, o, x, x, o, o, e, e, e], X, true)
  const Draw7 := Snapshot([x, o, x, x, o, o, e, x, e], O, true)
  const Draw8 := Snapshot([x, o, x, x, o, o, o, x, e], X, true)
  const Draw9 := Snapshot([x, o, x, x, o, o, o, x, x], X, false)

  lemma DrawStep1() ensures Click(Initial, 0) == Draw1 {}
  lemma DrawStep2() ensures Click(Draw1, 1) == Draw2 {}
  lemma DrawStep3() ensures Click(Draw2, 2) == Draw3 {}
  lemma DrawStep4() ensures Click(Draw3, 4) == Draw4 {}
  lemma DrawStep5() ensures Click(Draw4, 3) == Draw5 {}
  lemma DrawStep6() ensures Click(Draw5, 5) == Draw6 {}
  lemma DrawStep7() ensures Click(Draw6, 7) == Draw7 {}
  lemma DrawStep8() ensures Click(Draw7, 6) == Draw8 {}
  lemma DrawStep9() ensures Click(Draw8, 8) == Draw9 && OutcomeOf(Draw8, 8) == Accepted(Draw) {}

  lemma DrawOpening()
    ensures Run(Initial, [0, 1, 2, 4]) == Draw4
  {
    DrawStep1(); DrawStep2(); DrawStep3(); DrawStep4();
    assert [0, 1, 2, 4][1..] == [1, 2, 4];
    assert [1, 2, 4][1..] == [2, 4];
    assert [2, 4][1..] == [4];
  }

  lemma DrawMiddle()
    ensures Run(Draw4, [3, 5, 7, 6]) == Draw8
  {
    DrawStep5(); DrawStep6(); DrawStep7(); DrawStep8();
    assert [3, 5, 7, 6][1..] == [5, 7, 6];
    assert [5, 7, 6][1..] == [7, 6];
    assert [7, 6][1..] == [6];
  }

  /** The ninth move fills the board without completing a line: a draw, and
      the game stops. The nine moves are X 0, O 1, X 2, O 4, X 3, O 5, X 7,
      O 6, X 8. */
  lemma FullBoardDraw()
    ensures OutcomeOf(Run(Initial, [0, 1, 2, 4] + [3, 5, 7, 6]), 8) == Accepted(Draw)
    ensures Run(Initial, [0, 1, 2, 4] + [3, 5, 7, 6] + [8]) == Draw9
  {
    DrawOpening(); DrawMiddle(); DrawStep9();
    RunAppend(Initial, [0, 1, 2, 4], [3, 5, 7, 6]);
    RunAppend(Initial, [0, 1, 2, 4] + [3, 5, 7, 6], [8]);
  }
}
