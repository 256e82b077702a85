/** The 5x5 Teeko board: cells, coordinates, single-cell updates and cell counts. */
module TeekoBoard {

  /** The two piece colours, 'b' and 'r'. */
  datatype Piece = Black | Red

  /** A cell is empty (' ') or holds one player's piece. */
  datatype Cell = Empty | Occupied(piece: Piece)

  /** The colour of the other player. */
  function Other(p: Piece): (q: Piece)
    ensures q != p
  {
    if p == Black then Red else Black
  }

  /** A row or column coordinate. */
  type Index = i: int | 0 <= i < 5

  /** A (row, column) coordinate pair. */
  type Pos = (Index, Index)

  /** A board is five rows of five cells, indexed state[row][col]. */
  type Board = b: seq<seq<Cell>> | |b| == 5 && forall r :: 0 <= r < 5 ==> |b[r]| == 5
    witness seq(5, _ => seq(5, _ => Empty))

  /** A move as the engine writes it: a drop ((r, c),) or a relocation
      ((dest_r, dest_c), (src_r, src_c)), destination first. */
  datatype Move = Drop(dest: Pos) | Relocate(dest: Pos, src: Pos)

  /** The board at the start of the game. */
  const EmptyBoard: Board := seq(5, _ => seq(5, _ => Empty))

  function At(b: Board, p: Pos): Cell
  {
    b[p.0][p.1]
  }

  /** Row-major rank of a coordinate: 5 * row + col. */
  function Key(p: Pos): (k: int)
    ensures 0 <= k < 25
  {
    5 * p.0 + p.1
  }

  /** The board that differs from b only in that cell p holds x. */
  function Put(b: Board, p: Pos, x: Cell): (r: Board)
    ensures At(r, p) == x
    ensures forall q: Pos :: q != p ==> At(r, q) == At(b, q)
  {
    b[p.0 := b[p.0][p.1 := x]]
  }

  /** Writing two different cells in either order gives the same board. */
  lemma PutCommutes(b: Board, p: Pos, x: Cell, q: Pos, y: Cell)
    requires p != q
    ensures Put(Put(b, p, x), q, y) == Put(Put(b, q, y), p, x)
  {
    var l, r := Put(Put(b, p, x), q, y), Put(Put(b, q, y), p, x);
    forall i | 0 <= i < 5
      ensures l[i] == r[i]
    {
      forall j | 0 <= j < 5
        ensures l[i][j] == r[i][j]
      {
        var c: Pos := (i, j);
        assert l[i][j] == At(l, c) && r[i][j] == At(r, c);
      }
    }
  }

  /** line.count(x): how many cells of a line hold x. */
  function CountIn(s: seq<Cell>, x: Cell): (n: nat)
    ensures n <= |s|
  {
    if s == [] then 0 else CountIn(s[..|s| - 1], x) + (if s[|s| - 1] == x then 1 else 0)
  }

  /** Two different values cannot together fill more cells than the line has. */
  lemma {:induction false} CountInDisjoint(s: seq<Cell>, x: Cell, y: Cell)
    requires x != y
    ensures CountIn(s, x) + CountIn(s, y) <= |s|
  {
    if s != [] {
      CountInDisjoint(s[..|s| - 1], x, y);
    }
  }

  /** A line that still has an empty cell holds at most |s| - 1 pieces of one colour. */
  lemma CountInOpenLine(s: seq<Cell>, p: Piece)
    requires Empty in s
    ensures CountIn(s, Occupied(p)) <= |s| - 1
  {
    CountInDisjoint(s, Occupied(p), Empty);
    CountInPositive(s, Empty);
  }

  lemma {:induction false} CountInPositive(s: seq<Cell>, x: Cell)
    requires x in s
    ensures CountIn(s, x) >= 1
  {
    if s[|s| - 1] != x {
      assert x in s[..|s| - 1] by {
        var i :| 0 <= i < |s| && s[i] == x;
        assert s[..|s| - 1][i] == x;
      }
      CountInPositive(s[..|s| - 1], x);
    }
  }

  /** Updating one cell of a line changes its count of x by at most the old and new cell. */
  lemma {:induction false} CountInUpdate(s: seq<Cell>, i: nat, y: Cell, x: Cell)
    requires i < |s|
    ensures CountIn(s[i := y], x)
         == CountIn(s, x) - (if s[i] == x then 1 else 0) + (if y == x then 1 else 0)
  {
    var t := s[i := y];
    if i < |s| - 1 {
      assert t[..|t| - 1] == s[..|s| - 1][i := y];
      CountInUpdate(s[..|s| - 1], i, y, x);
    } else {
      assert t[..|t| - 1] == s[..|s| - 1];
    }
  }

  /** Number of cells holding x in rows 0 .. n-1. */
  function CountRows(b: Board, x: Cell, n: nat): (k: nat)
    requires n <= 5
    ensures k <= 5 * n
  {
    if n == 0 then 0 else CountRows(b, x, n - 1) + CountIn(b[n - 1], x)
  }

  /** Number of cells of the board holding x. */
  function CountCells(b: Board, x: Cell): nat
  {
    CountRows(b, x, 5)
  }

  /** The number of 'b' and 'r' pieces on the board, the sum computed at game.py:104. */
  function PieceCount(b: Board): nat
  {
    CountCells(b, Occupied(Black)) + CountCells(b, Occupied(Red))
  }

  lemma {:induction false} CountRowsPut(b: Board, p: Pos, y: Cell, x: Cell, n: nat)
    requires n <= 5
    ensures CountRows(Put(b, p, y), x, n)
         == CountRows(b, x, n)
            - (if p.0 < n && At(b, p) == x then 1 else 0)
            + (if p.0 < n && y == x then 1 else 0)
  {
    if n > 0 {
      CountRowsPut(b, p, y, x, n - 1);
      var b' := Put(b, p, y);
      if p.0 == n - 1 {
        assert b'[n - 1] == b[n - 1][p.1 := y];
        CountInUpdate(b[n - 1], p.1, y, x);
      } else {
        assert b'[n - 1] == b[n - 1];
      }
    }
  }

  /** How writing one cell changes the count of every cell value. */
  lemma CountCellsPut(b: Board, p: Pos, y: Cell, x: Cell)
    ensures CountCells(Put(b, p, y), x)
         == CountCells(b, x) - (if At(b, p) == x then 1 else 0) + (if y == x then 1 else 0)
  {
    CountRowsPut(b, p, y, x, 5);
  }
}
