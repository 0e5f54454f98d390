/**
 * The board evaluator of the 3x3 game: who has won, whether the board is
 * full, which squares are still open, and the status shown to the player.
 */
module Evaluator {
  import opened Wrappers

  /** The two marks: X is the human, O is the computer. */
  datatype Player = X | O

  /** A square: Empty stands for the game's null. */
  datatype Cell = Empty | Mark(player: Player)

  /** A square number, row-major: index = row * 3 + column. */
  type Index = k: int | 0 <= k < 9

  /** A board is always exactly nine squares. */
  type Board = b: seq<Cell> | |b| == 9
    witness [Empty, Empty, Empty, Empty, Empty, Empty, Empty, Empty, Empty]

  const EmptyBoard: Board := [Empty, Empty, Empty, Empty, Empty, Empty, Empty, Empty, Empty]

  function Other(p: Player): (q: Player)
    ensures q != p
  {
    if p == O then X else O
  }

  /** The eight winning triples in the order the game scans them:
      rows, then columns, then the two diagonals. */
  const Lines: seq<(Index, Index, Index)> :=
    [(0, 1, 2), (3, 4, 5), (6, 7, 8),
     (0, 3, 6), (1, 4, 7), (2, 5, 8),
     (0, 4, 8), (2, 4, 6)]

  /** A line holds three equal marks. */
  predicate Holds(b: Board, l: (Index, Index, Index))
  {
    b[l.0] != Empty && b[l.0] == b[l.1] && b[l.0] == b[l.2]
  }

  /** Line number i of the table holds three equal marks. */
  predicate LineWon(b: Board, i: nat)
    requires i < |Lines|
  {
    Holds(b, Lines[i])
  }

  function LineOwner(b: Board, i: nat): Player
    requires i < |Lines| && LineWon(b, i)
  {
    b[Lines[i].0].player
  }

  /** The scan of calculateWinner over a run of lines: the mark of the first
      line in the run that holds, if any. */
  function WinnerIn(b: Board, ls: seq<(Index, Index, Index)>): Option<Player>
  {
    if ls == [] then None
    else if Holds(b, ls[0]) then Some(b[ls[0].0].player)
    else WinnerIn(b, ls[1..])
  }

  function Winner(b: Board): Option<Player>
  {
    WinnerIn(b, Lines)
  }

  /** The scan finds a mark exactly when a line of the run holds, and then it
      is the mark of the first such line. */
  lemma {:induction false} WinnerInIsFirstHeld(b: Board, ls: seq<(Index, Index, Index)>)
    ensures WinnerIn(b, ls).None? <==> forall j :: 0 <= j < |ls| ==> !Holds(b, ls[j])
    ensures forall j :: 0 <= j < |ls| && Holds(b, ls[j]) && (forall k :: 0 <= k < j ==> !Holds(b, ls[k]))
              ==> WinnerIn(b, ls) == Some(b[ls[j].0].player)
  {
    if ls != [] {
      WinnerInIsFirstHeld(b, ls[1..]);
      assert forall j :: 1 <= j < |ls| ==> ls[j] == ls[1..][j - 1];
    }
  }

  /** calculateWinner returns a mark exactly when one of the eight lines is
      won, and the mark is that of the first won line in the listed order. */
  lemma WinnerIsFirstWonLine(b: Board)
    ensures Winner(b).None? <==> forall j :: 0 <= j < |Lines| ==> !LineWon(b, j)
    ensures forall j :: 0 <= j < |Lines| && LineWon(b, j) && (forall k :: 0 <= k < j ==> !LineWon(b, k))
              ==> Winner(b) == Some(LineOwner(b, j))
  {
    WinnerInIsFirstHeld(b, Lines);
    if forall j :: 0 <= j < |Lines| ==> !LineWon(b, j) {
      forall j | 0 <= j < |Lines| ensures !Holds(b, Lines[j]) { assert !LineWon(b, j); }
    }
    forall j | 0 <= j < |Lines| && LineWon(b, j) && (forall k :: 0 <= k < j ==> !LineWon(b, k))
      ensures Winner(b) == Some(LineOwner(b, j))
    {
      assert forall k :: 0 <= k < j ==> !Holds(b, Lines[k]) by {
        forall k | 0 <= k < j ensures !Holds(b, Lines[k]) { assert !LineWon(b, k); }
      }
    }
  }

  /** One step of the scan over the suffix of a line table. */
  lemma WinnerInStep(b: Board, ls: seq<(Index, Index, Index)>, i: nat)
    requires i < |ls|
    ensures WinnerIn(b, ls[i..]) ==
      if Holds(b, ls[i]) then Some(b[ls[i].0].player) else WinnerIn(b, ls[i + 1..])
  {
    assert ls[i..][1..] == ls[i + 1..];
  }

  /** The scan of calculateWinner written out line by line. */
  lemma WinnerUnrolled(b: Board)
    ensures Winner(b) ==
      if Holds(b, (0, 1, 2)) then Some(b[0].player)
      else if Holds(b, (3, 4, 5)) then Some(b[3].player)
      else if Holds(b, (6, 7, 8)) then Some(b[6].player)
      else if Holds(b, (0, 3, 6)) then Some(b[0].player)
      else if Holds(b, (1, 4, 7)) then Some(b[1].player)
      else if Holds(b, (2, 5, 8)) then Some(b[2].player)
      else if Holds(b, (0, 4, 8)) then Some(b[0].player)
      else if Holds(b, (2, 4, 6)) then Some(b[2].player)
      else None
  {
    assert Lines[0..] == Lines && Lines[8..] == [];
    WinnerInStep(b, Lines, 0);
    WinnerInStep(b, Lines, 1);
    WinnerInStep(b, Lines, 2);
    WinnerInStep(b, Lines, 3);
    WinnerInStep(b, Lines, 4);
    WinnerInStep(b, Lines, 5);
    WinnerInStep(b, Lines, 6);
    WinnerInStep(b, Lines, 7);
  }

  /** The loop of calculateWinner over the line table, with its early return. */
  method CalculateWinner(a: array<Cell>) returns (w: Option<Player>)
    requires a.Length == 9
    ensures w == Winner(a[..])
  {
    var i := 0;
    while i < |Lines|
      invariant 0 <= i <= |Lines|
      invariant WinnerIn(a[..], Lines[i..]) == Winner(a[..])
    {
      var (x, y, z) := Lines[i];
      if a[x] != Empty && a[x] == a[y] && a[x] == a[z] {
        return Some(a[x].player);
      }
      i := i + 1;
    }
    assert Lines[i..] == [];
    return None;
  }

  /** isBoardFull: no square is empty. */
  predicate IsFull(b: Board)
  {
    forall i :: 0 <= i < 9 ==> b[i] != Empty
  }

  /** The indices of the empty squares of a board prefix, in ascending order
      (the map-and-filter that builds the available spots). */
  function EmptyCellsOf(s: seq<Cell>): (r: seq<Index>)
    requires |s| <= 9
    ensures forall k: int :: k in r <==> 0 <= k < |s| && s[k] == Empty
    ensures forall m, n :: 0 <= m < n < |r| ==> r[m] < r[n]
  {
    if s == [] then []
    else
      var front := EmptyCellsOf(s[..|s| - 1]);
      assert forall n :: 0 <= n < |front| ==> front[n] < |s| - 1 by {
        forall n | 0 <= n < |front| ensures front[n] < |s| - 1 {
          assert front[n] in front;
        }
      }
      if s[|s| - 1] == Empty then front + [(|s| - 1) as Index] else front
  }

  function EmptyCells(b: Board): seq<Index>
  {
    EmptyCellsOf(b)
  }

  /** The list of available spots is empty exactly when the board is full. */
  lemma NoEmptyCellsIffFull(b: Board)
    ensures EmptyCells(b) == [] <==> IsFull(b)
  {
    if EmptyCells(b) != [] {
      assert EmptyCells(b)[0] in EmptyCells(b);
    }
  }

  /** The status the game reports. */
  datatype Status = InProgress | Won(winner: Player) | Draw

  /** isDraw: the board is full and nobody has won. */
  predicate IsDraw(b: Board)
  {
    IsFull(b) && Winner(b).None?
  }

  /** getStatus: a winner is reported first, then a draw, else the game goes on. */
  function Classify(b: Board): Status
  {
    var w := Winner(b);
    if w.Some? then Won(w.value)
    else if IsDraw(b) then Draw
    else InProgress
  }

  /** The status in terms of the eight lines: a won line always takes
      precedence over a full board, so a draw is a full board with no won
      line, and the game is in progress exactly when no line is won and
      some square is empty. */
  lemma ClassifyByLines(b: Board)
    ensures Classify(b).Won? <==> exists j :: 0 <= j < |Lines| && LineWon(b, j)
    ensures Classify(b) == Draw <==> IsFull(b) && forall j :: 0 <= j < |Lines| ==> !LineWon(b, j)
    ensures Classify(b) == InProgress <==> !IsFull(b) && forall j :: 0 <= j < |Lines| ==> !LineWon(b, j)
  {
    WinnerIsFirstWonLine(b);
  }

  /** A won board is never reported as a draw, and the reported winner owns
      a won line. */
  lemma WinTakesPrecedence(b: Board, j: nat)
    requires j < |Lines| && LineWon(b, j)
    ensures Classify(b) != Draw && !IsDraw(b)
    ensures exists i :: 0 <= i < |Lines| && LineWon(b, i) && Classify(b) == Won(LineOwner(b, i))
  {
    WinnerIsFirstWonLine(b);
    var i := FirstWonLine(b, 0, j);
    assert Classify(b) == Won(LineOwner(b, i));
  }

  /** The first won line at or after i, given that line j (>= i) is won. */
  function FirstWonLine(b: Board, i: nat, j: nat): (f: nat)
    requires i <= j < |Lines| && LineWon(b, j)
    ensures i <= f <= j && LineWon(b, f) && forall k :: i <= k < f ==> !LineWon(b, k)
    decreases j - i
  {
    if LineWon(b, i) then i else FirstWonLine(b, i + 1, j)
  }
}
