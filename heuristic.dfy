/** The static evaluation game_alg: the terminal value when the game is decided, otherwise
    (my_max - opp_max) / 4 over the 28 lines that still have an empty cell. */
module Heuristic {
  import opened TeekoBoard
  import opened Terminal

  /** Column i, top to bottom. */
  function Column(b: Board, i: Index): (l: seq<Cell>)
    ensures |l| == 5 && forall x :: 0 <= x < 5 ==> l[x] == b[x][i]
  {
    seq(5, x requires 0 <= x < 5 => b[x][i])
  }

  /** The main diagonal state[i][i]. */
  function Diagonal(b: Board): (l: seq<Cell>)
    ensures |l| == 5 && forall i :: 0 <= i < 5 ==> l[i] == b[i][i]
  {
    seq(5, i requires 0 <= i < 5 => b[i][i])
  }

  /** The anti-diagonal state[i][4 - i]. */
  function AntiDiagonal(b: Board): (l: seq<Cell>)
    ensures |l| == 5 && forall i :: 0 <= i < 5 ==> l[i] == b[i][4 - i]
  {
    seq(5, i requires 0 <= i < 5 => b[i][4 - i])
  }

  /** The 2x2 square with top-left corner (i, j), in the engine's cell order. */
  function Square(b: Board, i: int, j: int): seq<Cell>
    requires 0 <= i <= 3 && 0 <= j <= 3
  {
    [b[i][j], b[i + 1][j], b[i][j + 1], b[i + 1][j + 1]]
  }

  /** Row 0, column 0, row 1, column 1, ... up to row n-1, column n-1. */
  function RowsAndColumns(b: Board, n: nat): seq<seq<Cell>>
    requires n <= 5
  {
    if n == 0 then [] else RowsAndColumns(b, n - 1) + [b[n - 1], Column(b, n - 1)]
  }

  /** The squares whose corner is in row i and in columns 0 .. n-1. */
  function SquareRow(b: Board, i: int, n: nat): seq<seq<Cell>>
    requires 0 <= i <= 3 && n <= 4
  {
    if n == 0 then [] else SquareRow(b, i, n - 1) + [Square(b, i, n - 1)]
  }

  /** The squares whose corner is in rows 0 .. n-1, by row of the corner and then by column. */
  function Squares(b: Board, n: nat): seq<seq<Cell>>
    requires n <= 4
  {
    if n == 0 then [] else Squares(b, n - 1) + SquareRow(b, n - 1, 4)
  }

  /** The 28 lines the heuristic looks at: 5 rows and 5 columns (interleaved), the two
      full diagonals, and the 16 squares. */
  function Lines(b: Board): seq<seq<Cell>>
  {
    RowsAndColumns(b, 5) + [Diagonal(b), AntiDiagonal(b)] + Squares(b, 4)
  }

  /** The largest count of x over the lines that still contain an empty cell (0 if none):
      the value max(my_max, my_count) accumulates. */
  function OpenMax(lines: seq<seq<Cell>>, x: Cell): (m: nat)
    ensures forall j :: 0 <= j < |lines| && Empty in lines[j] ==> CountIn(lines[j], x) <= m
    ensures m == 0 || exists j :: 0 <= j < |lines| && Empty in lines[j] && CountIn(lines[j], x) == m
  {
    if lines == [] then 0
    else
      var init := lines[..|lines| - 1];
      var last := lines[|lines| - 1];
      var m := OpenMax(init, x);
      assert forall j :: 0 <= j < |init| ==> init[j] == lines[j];
      if Empty in last && CountIn(last, x) > m then CountIn(last, x) else m
  }

  /** Extending the lines considered by one: max(m, count) when the new line is open. */
  lemma OpenMaxExtend(lines: seq<seq<Cell>>, k: nat, x: Cell)
    requires k < |lines|
    ensures OpenMax(lines[..k + 1], x)
         == (var m := OpenMax(lines[..k], x);
             if Empty in lines[k] && m < CountIn(lines[k], x) then CountIn(lines[k], x) else m)
  {
    assert lines[..k + 1][..k] == lines[..k];
  }

  /** game_alg(state) for the player holding me. */
  function Evaluate(b: Board, me: Piece): real
  {
    var v := GameValue(b, me);
    if v != 0 then v as real
    else
      var lines := Lines(b);
      (OpenMax(lines, Occupied(me)) as int - OpenMax(lines, Occupied(Other(me))) as int) as real / 4.0
  }

  lemma {:induction false} RowsAndColumnsShape(b: Board, n: nat)
    requires n <= 5
    ensures |RowsAndColumns(b, n)| == 2 * n
    ensures forall j :: 0 <= j < 2 * n ==> |RowsAndColumns(b, n)[j]| == 5
  {
    if n > 0 {
      RowsAndColumnsShape(b, n - 1);
    }
  }

  lemma {:induction false} SquareRowShape(b: Board, i: int, n: nat)
    requires 0 <= i <= 3 && n <= 4
    ensures |SquareRow(b, i, n)| == n
    ensures forall j :: 0 <= j < n ==> |SquareRow(b, i, n)[j]| == 4
  {
    if n > 0 {
      SquareRowShape(b, i, n - 1);
    }
  }

  lemma {:induction false} SquaresShape(b: Board, n: nat)
    requires n <= 4
    ensures |Squares(b, n)| == 4 * n
    ensures forall j :: 0 <= j < 4 * n ==> |Squares(b, n)[j]| == 4
  {
    if n > 0 {
      SquaresShape(b, n - 1);
      SquareRowShape(b, n - 1, 4);
    }
  }

  /** There are 28 lines, each of four or five cells. */
  lemma LinesShape(b: Board)
    ensures |Lines(b)| == 28
    ensures forall j :: 0 <= j < 28 ==> 4 <= |Lines(b)[j]| <= 5
  {
    RowsAndColumnsShape(b, 5);
    SquaresShape(b, 4);
  }

  /** An open line of at most five cells holds at most four pieces of a colour, so both maxima are at most 4. */
  lemma OpenMaxBound(b: Board, p: Piece)
    ensures OpenMax(Lines(b), Occupied(p)) <= 4
  {
    var lines := Lines(b);
    LinesShape(b);
    var m := OpenMax(lines, Occupied(p));
    if m != 0 {
      var j :| 0 <= j < |lines| && Empty in lines[j] && CountIn(lines[j], Occupied(p)) == m;
      CountInOpenLine(lines[j], p);
    }
  }

  /** game_alg returns game_value on a decided board, and a value in [-1, 1] in every case. */
  lemma EvaluateRange(b: Board, me: Piece)
    ensures -1.0 <= Evaluate(b, me) <= 1.0
    ensures GameValue(b, me) != 0 ==> Evaluate(b, me) == GameValue(b, me) as real
  {
    OpenMaxBound(b, me);
    OpenMaxBound(b, Other(me));
  }

  /** The evaluation is zero-sum: the other player's view of a board is the negation of mine. */
  lemma EvaluateAntisymmetric(b: Board, me: Piece)
    ensures Evaluate(b, Other(me)) == -Evaluate(b, me)
  {
    assert Other(Other(me)) == me;
  }

  lemma {:induction false} CountInAbsent(s: seq<Cell>, x: Cell)
    requires forall t :: 0 <= t < |s| ==> s[t] != x
    ensures CountIn(s, x) == 0
  {
    if s != [] {
      CountInAbsent(s[..|s| - 1], x);
    }
  }

  lemma {:induction false} RowsAndColumnsEmpty(b: Board, n: nat)
    requires n <= 5
    requires forall r, c :: 0 <= r < 5 && 0 <= c < 5 ==> b[r][c] == Empty
    ensures forall j, t :: 0 <= j < |RowsAndColumns(b, n)| && 0 <= t < |RowsAndColumns(b, n)[j]| ==>
      RowsAndColumns(b, n)[j][t] == Empty
  {
    if n > 0 {
      RowsAndColumnsEmpty(b, n - 1);
    }
  }

  lemma {:induction false} SquareRowEmpty(b: Board, i: int, n: nat)
    requires 0 <= i <= 3 && n <= 4
    requires forall r, c :: 0 <= r < 5 && 0 <= c < 5 ==> b[r][c] == Empty
    ensures forall j, t :: 0 <= j < |SquareRow(b, i, n)| && 0 <= t < |SquareRow(b, i, n)[j]| ==>
      SquareRow(b, i, n)[j][t] == Empty
  {
    if n > 0 {
      SquareRowEmpty(b, i, n - 1);
    }
  }

  lemma {:induction false} SquaresEmpty(b: Board, n: nat)
    requires n <= 4
    requires forall r, c :: 0 <= r < 5 && 0 <= c < 5 ==> b[r][c] == Empty
    ensures forall j, t :: 0 <= j < |Squares(b, n)| && 0 <= t < |Squares(b, n)[j]| ==> Squares(b, n)[j][t] == Empty
  {
    if n > 0 {
      SquaresEmpty(b, n - 1);
      SquareRowEmpty(b, n - 1, 4);
    }
  }

  /** The all-empty board evaluates to exactly 0. */
  lemma EvaluateEmptyBoard(me: Piece)
    ensures Evaluate(EmptyBoard, me) == 0.0
  {
    var b := EmptyBoard;
    assert forall k :: 0 <= k < |ScanOrder()| ==> !Complete(b, ScanOrder()[k]);
    var lines := Lines(b);
    RowsAndColumnsEmpty(b, 5);
    SquaresEmpty(b, 4);
    forall j, p: Piece | 0 <= j < |lines|
      ensures CountIn(lines[j], Occupied(p)) == 0
    {
      CountInAbsent(lines[j], Occupied(p));
    }
  }
}
