/**
 * Concrete positions whose minimax result follows from the general lemmas
 * without exploring the whole game tree.
 */
module Scenarios {
  import opened Wrappers
  import opened Evaluator
  import opened Search

  /** X holds squares 0 and 1, O holds the centre. */
  const TopRowThreat: Board :=
    [Mark(X), Mark(X), Empty,
     Empty,   Mark(O), Empty,
     Empty,   Empty,   Empty]

  /** X on 0, 2, 4 and O on 1, 3, 5: X threatens both diagonals. */
  const DoubleThreat: Board :=
    [Mark(X), Mark(O), Mark(X),
     Mark(O), Mark(X), Mark(O),
     Empty,   Empty,   Empty]

  /** Any O move other than square 2 lets X complete the top row. */
  lemma TopRowThreatReplies(j: Index)
    requires TopRowThreat[j] == Empty && j != 2
    ensures ChildScore(TopRowThreat, O, j) == -10
  {
    WinnerUnrolled(TopRowThreat[j := Mark(O)]);
    if j == 3 {
      WinningReply(TopRowThreat[3 := Mark(O)], X, 2);
    } else if j == 5 {
      WinningReply(TopRowThreat[5 := Mark(O)], X, 2);
    } else if j == 6 {
      WinningReply(TopRowThreat[6 := Mark(O)], X, 2);
    } else if j == 7 {
      WinningReply(TopRowThreat[7 := Mark(O)], X, 2);
    } else {
      WinningReply(TopRowThreat[8 := Mark(O)], X, 2);
    }
  }

  /** The computer blocks the open top row: it plays square 2, the lowest
      empty square, since every other square loses at once. */
  lemma TopRowThreatIsBlocked()
    ensures Minimax(TopRowThreat, O).index == Some(2)
  {
    var b := TopRowThreat;
    assert Winner(b) == None && b[2] == Empty;
    MinimaxPicksBest(b, O);
    var k := Minimax(b, O).index.value;
    assert ChildScore(b, O, 2) >= -10;
    forall j: Index | b[j] == Empty && j != 2
      ensures ChildScore(b, O, j) == -10
    {
      TopRowThreatReplies(j);
    }
  }

  /** Wherever O plays, X completes one of the two diagonals. */
  lemma DoubleThreatReplies(j: Index)
    requires DoubleThreat[j] == Empty
    ensures ChildScore(DoubleThreat, O, j) == -10
  {
    WinnerUnrolled(DoubleThreat[j := Mark(O)]);
    if j == 6 {
      WinnerUnrolled(DoubleThreat[6 := Mark(O)][8 := Mark(X)]);
      WinningReply(DoubleThreat[6 := Mark(O)], X, 8);
    } else if j == 7 {
      WinnerUnrolled(DoubleThreat[7 := Mark(O)][8 := Mark(X)]);
      WinningReply(DoubleThreat[7 := Mark(O)], X, 8);
    } else {
      WinnerUnrolled(DoubleThreat[8 := Mark(O)][6 := Mark(X)]);
      WinningReply(DoubleThreat[8 := Mark(O)], X, 6);
    }
  }

  /** The position is still in progress: no line is complete. */
  lemma DoubleThreatInProgress()
    ensures Classify(DoubleThreat) == InProgress
  {
    WinnerUnrolled(DoubleThreat);
    assert !IsFull(DoubleThreat) by { assert DoubleThreat[6] == Empty; }
  }

  /** The computer cannot avoid losing and, all replies tying at -10, takes
      the lowest empty square. */
  lemma DoubleThreatIsLost()
    ensures Minimax(DoubleThreat, O) == Outcome(-10, Some(6))
  {
    var b := DoubleThreat;
    DoubleThreatInProgress();
    MinimaxPicksBest(b, O);
    var r := Minimax(b, O);
    var k := r.index.value;
    DoubleThreatReplies(k);
    DoubleThreatReplies(6);
    assert r.score == -10;
    assert !Better(O, r.score, ChildScore(b, O, 6));
    forall j: Index | j < 6 ensures b[j] != Empty {
      if j == 0 {} else if j == 1 {} else if j == 2 {} else if j == 3 {} else if j == 4 {} else {}
    }
  }
}
