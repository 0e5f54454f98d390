/**
 * The game's state machine: the board and whose turn it is, the human's
 * click and the computer's reply.
 */
module Game {
  import opened Wrappers
  import opened Evaluator
  import opened Search

  /** The number of squares of s that hold p's mark. */
  function Count(s: seq<Cell>, p: Player): nat
  {
    if s == [] then 0
    else Count(s[..|s| - 1], p) + (if s[|s| - 1] == Mark(p) then 1 else 0)
  }

  /** Marking an empty square adds one to the count of that mark and leaves
      the other mark's count alone. */
  lemma {:induction false} CountPlace(s: seq<Cell>, k: nat, p: Player, q: Player)
    requires k < |s| && s[k] == Empty
    ensures Count(s[k := Mark(p)], q) == Count(s, q) + (if p == q then 1 else 0)
    decreases |s|
  {
    var t := s[k := Mark(p)];
    if k == |s| - 1 {
      assert t[..|t| - 1] == s[..|s| - 1];
    } else {
      assert t[..|t| - 1] == s[..|s| - 1][k := Mark(p)];
      CountPlace(s[..|s| - 1], k, p, q);
    }
  }

  /** An all-empty board holds no marks. */
  lemma {:induction false} CountAllEmpty(s: seq<Cell>, p: Player)
    requires forall i :: 0 <= i < |s| ==> s[i] == Empty
    ensures Count(s, p) == 0
  {
    if s != [] {
      CountAllEmpty(s[..|s| - 1], p);
    }
  }

  /** X moves first and turns alternate: X has as many marks as O when X is
      to move, and one more when O is. */
  predicate TurnsAlternate(b: Board, xNext: bool)
  {
    Count(b, X) == Count(b, O) + (if xNext then 0 else 1)
  }

  /** board.slice(): a fresh array with the same squares. */
  method Copy(a: array<Cell>) returns (c: array<Cell>)
    ensures fresh(c) && c[..] == a[..]
  {
    c := new Cell[a.Length];
    var i := 0;
    while i < a.Length
      invariant 0 <= i <= a.Length
      invariant forall j :: 0 <= j < i ==> c[j] == a[j]
    {
      c[i] := a[i];
      i := i + 1;
    }
  }

  /** The component's state: the squares and whether X moves next. */
  class TicTacToe {
    var board: array<Cell>
    var xNext: bool

    ghost predicate Valid()
      reads this, board
    {
      board.Length == 9 && TurnsAlternate(board[..], xNext)
    }

    /** A new game: nine empty squares, X to move. */
    constructor ()
      ensures Valid() && fresh(board)
      ensures board[..] == EmptyBoard && xNext
    {
      var squares := new Cell[9](_ => Empty);
      assert squares[..] == EmptyBoard;
      CountAllEmpty(squares[..], X);
      CountAllEmpty(squares[..], O);
      board := squares;
      xNext := true;
    }

    /** handleClick: a click on an occupied square, or once the game is won
        or the board is full, changes nothing; otherwise a copy of the board
        gets the mark of the player to move on that square and the turn
        passes. */
    method HandleClick(index: Index)
      requires Valid()
      modifies this
      ensures Valid()
      ensures var before := old(board[..]);
        if before[index] != Empty || Winner(before).Some? || IsFull(before) then
          board == old(board) && board[..] == before && xNext == old(xNext)
        else
          (fresh(board) &&
           board[..] == before[index := Mark(if old(xNext) then X else O)] &&
           xNext == !old(xNext))
    {
      var w := CalculateWinner(board);
      if board[index] != Empty || w.Some? || IsFull(board[..]) {
        return;
      }
      ghost var before := board[..];
      var mark := if xNext then X else O;
      var next := Copy(board);
      next[index] := Mark(mark);
      board := next;
      xNext := !xNext;
      assert board[..] == before[index := Mark(mark)];
      CountPlace(before, index, mark, X);
      CountPlace(before, index, mark, O);
    }

    /** The computer's turn: when O is to move on a board that is neither won
        nor full, minimax runs on the current board (which it leaves as it
        was), a copy gets O on the chosen square and X moves next. Otherwise
        nothing changes. */
    method ComputerStep()
      requires Valid()
      modifies this, board
      ensures Valid()
      ensures old(board)[..] == old(board[..])
      ensures var before := old(board[..]);
        if !old(xNext) && !Terminal(before) then
          (Minimax(before, O).index.Some? &&
           fresh(board) &&
           board[..] == before[Minimax(before, O).index.value := Mark(O)] &&
           xNext)
        else
          board == old(board) && board[..] == before && xNext == old(xNext)
    {
      ghost var before := board[..];
      var w := CalculateWinner(board);
      if !xNext && w.None? && !IsFull(board[..]) {
        var idx := ComputerMove(board);
        if idx.Some? {
          var next := Copy(board);
          next[idx.value] := Mark(O);
          board := next;
          xNext := true;
          assert board[..] == before[idx.value := Mark(O)];
          CountPlace(before, idx.value, O, X);
          CountPlace(before, idx.value, O, O);
        }
      }
    }
  }
}
