/**
 * The computer's move search: an exhaustive, unpruned minimax. O maximises
 * and X minimises a score that is -10 for an X win, +10 for an O win and 0
 * for a draw.
 */
module Search {
  import opened Wrappers
  import opened Evaluator

  /** A candidate: a square and the score the opponent's reply search gave it. */
  datatype Move = Move(index: Index, score: int)

  /** What minimax returns: a score, and a square unless the board was terminal. */
  datatype Outcome = Outcome(score: int, index: Option<Index>)

  /** The only scores minimax ever produces. */
  predicate IsScore(s: int)
  {
    s == -10 || s == 0 || s == 10
  }

  /** Score s improves strictly on t for the player to move: O looks for a
      strictly greater score, X for a strictly smaller one. */
  predicate Better(p: Player, s: int, t: int)
  {
    if p == O then s > t else s < t
  }

  /** The best score a player can hope for. */
  function WinScore(p: Player): int
  {
    if p == O then 10 else -10
  }

  /** The set of empty squares; placing a mark removes one, so it measures the
      depth left in the game tree. */
  ghost function Open(b: Board): set<int>
  {
    set k | 0 <= k < 9 && b[k] == Empty
  }

  lemma PlaceShrinksOpen(b: Board, k: Index, p: Player)
    requires b[k] == Empty
    ensures Open(b[k := Mark(p)]) < Open(b)
  {
    assert k in Open(b) && k !in Open(b[k := Mark(p)]);
  }

  /** The terminal board test of minimax: a win by X, a win by O, or no
      empty square. */
  predicate Terminal(b: Board)
  {
    Winner(b).Some? || IsFull(b)
  }

  /** Minimax as a function: the specification of the search. Terminal
      boards are scored first (a win is checked before fullness) and carry no
      square; otherwise every empty square is tried in ascending order and the
      first strictly best candidate is returned. */
  function Minimax(b: Board, p: Player): (r: Outcome)
    ensures IsScore(r.score)
    ensures r.index.Some? ==> b[r.index.value] == Empty
    decreases Open(b), 2
  {
    if Winner(b) == Some(X) then Outcome(-10, None)
    else if Winner(b) == Some(O) then Outcome(10, None)
    else if EmptyCells(b) == [] then Outcome(0, None)
    else
      var ms := Moves(b, p, EmptyCells(b));
      var k := ArgBest(p, ms);
      Outcome(ms[k].score, Some(ms[k].index))
  }

  /** Minimax yields a square exactly when the board is not terminal. */
  lemma MinimaxMovesIffNotTerminal(b: Board, p: Player)
    ensures Minimax(b, p).index.None? <==> Terminal(b)
  {
    NoEmptyCellsIffFull(b);
    match Winner(b)
    case Some(w) => assert w == X || w == O;
    case None =>
  }

  /** The candidate list: one Move per spot, in the order of the spots. */
  function Moves(b: Board, p: Player, spots: seq<Index>): (ms: seq<Move>)
    requires forall j :: 0 <= j < |spots| ==> b[spots[j]] == Empty
    ensures |ms| == |spots|
    ensures forall j :: 0 <= j < |ms| ==> ms[j].index == spots[j] && IsScore(ms[j].score)
    decreases Open(b), 1, |spots|
  {
    if spots == [] then []
    else
      var last := spots[|spots| - 1];
      Moves(b, p, spots[..|spots| - 1]) + [Move(last, ChildScore(b, p, last))]
  }

  /** The score of placing p's mark on square k and letting the other player
      move. */
  function ChildScore(b: Board, p: Player, k: Index): (s: int)
    requires b[k] == Empty
    ensures IsScore(s)
    decreases Open(b), 0
  {
    PlaceShrinksOpen(b, k, p);
    Minimax(b[k := Mark(p)], Other(p)).score
  }

  /** The selection scan: the first candidate whose score is strictly better
      than every earlier one and no worse than any other. */
  function ArgBest(p: Player, ms: seq<Move>): (k: nat)
    requires |ms| > 0
    ensures k < |ms|
    ensures forall j :: 0 <= j < |ms| ==> !Better(p, ms[j].score, ms[k].score)
    ensures forall j :: 0 <= j < k ==> Better(p, ms[k].score, ms[j].score)
  {
    if |ms| == 1 then 0
    else
      var k := ArgBest(p, ms[..|ms| - 1]);
      if Better(p, ms[|ms| - 1].score, ms[k].score) then |ms| - 1 else k
  }

  /** Every candidate carries the reply score of its own square. */
  lemma {:induction false} MovesAt(b: Board, p: Player, spots: seq<Index>, j: nat)
    requires forall i :: 0 <= i < |spots| ==> b[spots[i]] == Empty
    requires j < |spots|
    ensures j < |Moves(b, p, spots)|
    ensures Moves(b, p, spots)[j] == Move(spots[j], ChildScore(b, p, spots[j]))
    decreases |spots|
  {
    if j < |spots| - 1 {
      MovesAt(b, p, spots[..|spots| - 1], j);
    }
  }

  /** On a board that is not terminal, minimax returns an empty square whose
      reply score is its score, that score is the maximum (for O) or the
      minimum (for X) over all empty squares, and every empty square below
      the chosen one scores strictly worse, so ties go to the lowest index. */
  lemma MinimaxPicksBest(b: Board, p: Player)
    requires !Terminal(b)
    ensures Minimax(b, p).index.Some?
    ensures var k := Minimax(b, p).index.value;
      && b[k] == Empty
      && Minimax(b, p).score == ChildScore(b, p, k)
      && (forall j: Index :: b[j] == Empty ==> !Better(p, ChildScore(b, p, j), Minimax(b, p).score))
      && (forall j: Index :: j < k && b[j] == Empty ==> Better(p, Minimax(b, p).score, ChildScore(b, p, j)))
  {
    NoEmptyCellsIffFull(b);
    MinimaxMovesIffNotTerminal(b, p);
    var spots := EmptyCells(b);
    var ms := Moves(b, p, spots);
    var a := ArgBest(p, ms);
    MovesAt(b, p, spots, a);
    var r := Minimax(b, p);
    assert r == Outcome(ms[a].score, Some(ms[a].index));
    var k := spots[a];
    forall j: Index | b[j] == Empty
      ensures !Better(p, ChildScore(b, p, j), r.score)
      ensures j < k ==> Better(p, r.score, ChildScore(b, p, j))
    {
      assert j in spots;
      var q :| 0 <= q < |spots| && spots[q] == j;
      MovesAt(b, p, spots, q);
      if j < k {
        assert q < a;
      }
    }
  }

  /** A player who can complete a line at once gets the best score for them. */
  lemma WinningReply(b: Board, p: Player, k: Index)
    requires Winner(b).None? && b[k] == Empty
    requires Winner(b[k := Mark(p)]) == Some(p)
    ensures Minimax(b, p).score == WinScore(p)
  {
    assert !IsFull(b) by { assert b[k] == Empty; }
    MinimaxPicksBest(b, p);
    assert ChildScore(b, p, k) == WinScore(p);
  }

  /** Win before fullness: a board with a won line scores as a win for the
      first line's owner, never as a draw, and yields no square. */
  lemma WonBoardScore(b: Board, p: Player, j: nat)
    requires j < |Lines| && LineWon(b, j)
    ensures Winner(b).Some? && Minimax(b, p) == Outcome(WinScore(Winner(b).value), None)
  {
    WinnerIsFirstWonLine(b);
  }

  /** A full board with no won line scores 0 and yields no square. */
  lemma DrawScore(b: Board, p: Player)
    requires IsFull(b) && forall j :: 0 <= j < |Lines| ==> !LineWon(b, j)
    ensures Minimax(b, p) == Outcome(0, None)
  {
    WinnerIsFirstWonLine(b);
    NoEmptyCellsIffFull(b);
  }

  /** The sentinel that stands for Infinity: beyond every score. */
  const Infinity: int := 11

  /** The selection loops: keep the first candidate that sets a strictly
      better score, starting from the sentinel -Infinity (O) or Infinity (X). */
  method SelectBest(p: Player, moves: seq<Move>) returns (best: nat)
    requires |moves| > 0
    requires forall j :: 0 <= j < |moves| ==> IsScore(moves[j].score)
    ensures best == ArgBest(p, moves)
  {
    var bestScore := if p == O then -Infinity else Infinity;
    best := 0;
    var i := 0;
    while i < |moves|
      invariant 0 <= i <= |moves|
      invariant i == 0 ==> bestScore == (if p == O then -Infinity else Infinity)
      invariant 0 < i ==> best == ArgBest(p, moves[..i]) && bestScore == moves[best].score
    {
      if Better(p, moves[i].score, bestScore) {
        bestScore := moves[i].score;
        best := i;
      }
      assert moves[..i + 1][..i] == moves[..i];
      i := i + 1;
    }
    assert moves[..|moves|] == moves;
  }

  /** minimax itself: on the caller's array, place the mark on each available
      spot, recurse with the other player, and restore the square before the
      next candidate. The array is left as it was and the result is the
      specification's. */
  method MinimaxSearch(a: array<Cell>, p: Player) returns (r: Outcome)
    requires a.Length == 9
    modifies a
    ensures a[..] == old(a[..])
    ensures r == Minimax(old(a[..]), p)
    decreases Open(a[..])
  {
    ghost var b: Board := a[..];
    NoEmptyCellsIffFull(b);
    var spots := EmptyCells(a[..]);
    var w := CalculateWinner(a);
    if w == Some(X) {
      return Outcome(-10, None);
    } else if w == Some(O) {
      return Outcome(10, None);
    } else if |spots| == 0 {
      return Outcome(0, None);
    }
    var moves: seq<Move> := [];
    var i := 0;
    while i < |spots|
      invariant 0 <= i <= |spots|
      invariant a[..] == b
      invariant moves == Moves(b, p, spots[..i])
    {
      var k := spots[i];
      a[k] := Mark(p);
      assert a[..] == b[k := Mark(p)];
      PlaceShrinksOpen(b, k, p);
      var result := MinimaxSearch(a, Other(p));
      a[k] := Empty;
      assert a[..] == b;
      moves := moves + [Move(k, result.score)];
      assert spots[..i + 1][..i] == spots[..i];
      i := i + 1;
    }
    assert spots[..|spots|] == spots;
    var best := SelectBest(p, moves);
    r := Outcome(moves[best].score, Some(moves[best].index));
  }

  /** computerMove: the square minimax picks for O, computed on the caller's
      array, which is left as it was. */
  method ComputerMove(a: array<Cell>) returns (idx: Option<Index>)
    requires a.Length == 9
    modifies a
    ensures a[..] == old(a[..])
    ensures idx == Minimax(old(a[..]), O).index
    ensures idx.None? <==> Terminal(old(a[..]))
    ensures idx.Some? ==> old(a[..])[idx.value] == Empty
  {
    ghost var b := a[..];
    var r := MinimaxSearch(a, O);
    idx := r.index;
    MinimaxMovesIffNotTerminal(b, O);
  }
}
