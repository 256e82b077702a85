/** Successor generation: every (board, move) pair one player can reach in one move,
    in the engine's generation order. */
module Generation {
  import opened TeekoBoard

  /** The king-step offsets in the order the engine tries them:
      NW, N, NE, W, E, SW, S, SE. */
  const Directions: seq<(int, int)> := [(-1, -1), (-1, 0), (-1, 1), (0, -1), (0, 1), (1, -1), (1, 0), (1, 1)]

  /** A successor: the resulting board and the move that produced it. */
  type Successor = (Board, Move)

  /** dst is one of the eight king-move neighbours of src. */
  predicate IsKingStep(src: Pos, dst: Pos)
  {
    src != dst && -1 <= dst.0 - src.0 <= 1 && -1 <= dst.1 - src.1 <= 1
  }

  /** The position of the offset dst - src in Directions. */
  function DirIndex(src: Pos, dst: Pos): int
  {
    var t := (dst.0 - src.0 + 1) * 3 + (dst.1 - src.1 + 1);
    if t > 4 then t - 1 else t
  }

  /** The cell a move is generated from: the drop target or the relocation source. */
  function Origin(m: Move): Pos
  {
    if m.Drop? then m.dest else m.src
  }

  /** Rank of a move in generation order: row-major by origin, then by direction. */
  function OrderKey(m: Move): int
  {
    8 * Key(Origin(m)) + (if m.Drop? then 0 else DirIndex(m.src, m.dest))
  }

  /** Relocating the piece at src along Directions[d], when that cell is on the board and empty. */
  function Step(b: Board, p: Piece, src: Pos, d: nat): seq<Successor>
    requires d < 8
  {
    var nr, nc := src.0 + Directions[d].0, src.1 + Directions[d].1;
    if 0 <= nr < 5 && 0 <= nc < 5 && b[nr][nc] == Empty then
      var dst: Pos := (nr, nc);
      [(Put(Put(b, dst, Occupied(p)), src, Empty), Relocate(dst, src))]
    else
      []
  }

  /** The relocations of the piece at src along the first d directions. */
  function Steps(b: Board, p: Piece, src: Pos, d: nat): seq<Successor>
    requires d <= 8
  {
    if d == 0 then [] else Steps(b, p, src, d - 1) + Step(b, p, src, d - 1)
  }

  /** The successors generated from cell q: a drop on q if it is empty (drop mode),
      or every relocation of p's piece on q (relocation mode). */
  function CellSuccessors(b: Board, p: Piece, drop: bool, q: Pos): seq<Successor>
  {
    if drop then
      if At(b, q) == Empty then [(Put(b, q, Occupied(p)), Drop(q))] else []
    else
      if At(b, q) == Occupied(p) then Steps(b, p, q, 8) else []
  }

  /** The successors generated from cells (r, 0) .. (r, c-1). */
  function RowSuccessors(b: Board, p: Piece, drop: bool, r: Index, c: nat): seq<Successor>
    requires c <= 5
  {
    if c == 0 then [] else RowSuccessors(b, p, drop, r, c - 1) + CellSuccessors(b, p, drop, (r, c - 1))
  }

  /** The successors generated from rows 0 .. n-1. */
  function RowsSuccessors(b: Board, p: Piece, drop: bool, n: nat): seq<Successor>
    requires n <= 5
  {
    if n == 0 then [] else RowsSuccessors(b, p, drop, n - 1) + RowSuccessors(b, p, drop, n - 1, 5)
  }

  /** The successor list that succ(state, drop) returns when p is the engine's piece. */
  function Successors(b: Board, p: Piece, drop: bool): seq<Successor>
  {
    RowsSuccessors(b, p, drop, 5)
  }

  /** x is a legal one-move successor of b for p in the given mode. */
  ghost predicate Legal(b: Board, p: Piece, drop: bool, x: Successor)
  {
    var (s, m) := x;
    if drop then
      m.Drop? && At(b, m.dest) == Empty && s == Put(b, m.dest, Occupied(p))
    else
      m.Relocate? && At(b, m.src) == Occupied(p) && At(b, m.dest) == Empty
      && IsKingStep(m.src, m.dest) && s == Put(Put(b, m.dest, Occupied(p)), m.src, Empty)
  }

  ghost predicate AllLegal(b: Board, p: Piece, drop: bool, s: seq<Successor>)
  {
    forall j :: 0 <= j < |s| ==> Legal(b, p, drop, s[j])
  }

  ghost predicate Sorted(s: seq<Successor>)
  {
    forall i, j :: 0 <= i < j < |s| ==> OrderKey(s[i].1) < OrderKey(s[j].1)
  }

  ghost predicate KeysWithin(s: seq<Successor>, lo: int, hi: int)
  {
    forall j :: 0 <= j < |s| ==> lo <= OrderKey(s[j].1) < hi
  }

  lemma Concat(b: Board, drop: bool, pc: Piece, s: seq<Successor>, t: seq<Successor>, lo: int, mid: int, hi: int)
    requires AllLegal(b, pc, drop, s) && AllLegal(b, pc, drop, t)
    requires Sorted(s) && Sorted(t) && KeysWithin(s, lo, mid) && KeysWithin(t, mid, hi) && lo <= mid <= hi
    ensures AllLegal(b, pc, drop, s + t) && Sorted(s + t) && KeysWithin(s + t, lo, hi)
  {
    var u := s + t;
    forall i, j | 0 <= i < j < |u|
      ensures OrderKey(u[i].1) < OrderKey(u[j].1)
    {
      if j < |s| {
        assert u[i] == s[i] && u[j] == s[j];
      } else if i < |s| {
        assert u[i] == s[i] && u[j] == t[j - |s|];
      } else {
        assert u[i] == t[i - |s|] && u[j] == t[j - |s|];
      }
    }
    forall j | 0 <= j < |u|
      ensures Legal(b, pc, drop, u[j]) && lo <= OrderKey(u[j].1) < hi
    {
      if j < |s| { assert u[j] == s[j]; } else { assert u[j] == t[j - |s|]; }
    }
  }

  /** The direction list holds the eight king steps, each exactly once. */
  lemma DirectionsAreKingSteps()
    ensures |Directions| == 8
    ensures forall k :: 0 <= k < |Directions| ==>
      Directions[k] != (0, 0) && -1 <= Directions[k].0 <= 1 && -1 <= Directions[k].1 <= 1
    ensures forall i, j :: 0 <= i < j < |Directions| ==> Directions[i] != Directions[j]
  {
  }

  /** Directions[d] is a king step and DirIndex recovers d from it. */
  lemma DirectionFacts(src: Pos, d: nat, dst: Pos)
    requires d < 8
    requires dst.0 == src.0 + Directions[d].0 && dst.1 == src.1 + Directions[d].1
    ensures IsKingStep(src, dst) && DirIndex(src, dst) == d
  {
  }

  lemma {:induction false} StepsFacts(b: Board, p: Piece, src: Pos, d: nat)
    requires d <= 8
    requires At(b, src) == Occupied(p)
    ensures AllLegal(b, p, false, Steps(b, p, src, d))
    ensures Sorted(Steps(b, p, src, d))
    ensures KeysWithin(Steps(b, p, src, d), 8 * Key(src), 8 * Key(src) + d)
  {
    if d > 0 {
      StepsFacts(b, p, src, d - 1);
      var st := Step(b, p, src, d - 1);
      if st != [] {
        var dst := st[0].1.dest;
        DirectionFacts(src, d - 1, dst);
        assert Legal(b, p, false, st[0]);
      }
      Concat(b, false, p, Steps(b, p, src, d - 1), st, 8 * Key(src), 8 * Key(src) + d - 1, 8 * Key(src) + d);
    }
  }

  lemma CellFacts(b: Board, p: Piece, drop: bool, q: Pos)
    ensures AllLegal(b, p, drop, CellSuccessors(b, p, drop, q))
    ensures Sorted(CellSuccessors(b, p, drop, q))
    ensures KeysWithin(CellSuccessors(b, p, drop, q), 8 * Key(q), 8 * Key(q) + 8)
  {
    if !drop && At(b, q) == Occupied(p) {
      StepsFacts(b, p, q, 8);
    }
  }

  lemma {:induction false} RowFacts(b: Board, p: Piece, drop: bool, r: Index, c: nat)
    requires c <= 5
    ensures AllLegal(b, p, drop, RowSuccessors(b, p, drop, r, c))
    ensures Sorted(RowSuccessors(b, p, drop, r, c))
    ensures KeysWithin(RowSuccessors(b, p, drop, r, c), 40 * r, 40 * r + 8 * c)
  {
    if c > 0 {
      RowFacts(b, p, drop, r, c - 1);
      var q: Pos := (r, c - 1);
      CellFacts(b, p, drop, q);
      Concat(b, drop, p, RowSuccessors(b, p, drop, r, c - 1), CellSuccessors(b, p, drop, q),
             40 * r, 40 * r + 8 * (c - 1), 40 * r + 8 * c);
    }
  }

  lemma {:induction false} RowsFacts(b: Board, p: Piece, drop: bool, n: nat)
    requires n <= 5
    ensures AllLegal(b, p, drop, RowsSuccessors(b, p, drop, n))
    ensures Sorted(RowsSuccessors(b, p, drop, n))
    ensures KeysWithin(RowsSuccessors(b, p, drop, n), 0, 40 * n)
  {
    if n > 0 {
      RowsFacts(b, p, drop, n - 1);
      RowFacts(b, p, drop, n - 1, 5);
      Concat(b, drop, p, RowsSuccessors(b, p, drop, n - 1), RowSuccessors(b, p, drop, n - 1, 5),
             0, 40 * (n - 1), 40 * n);
    }
  }

  /** Every generated successor is legal, and the list is strictly increasing in generation order. */
  lemma SuccessorsFacts(b: Board, p: Piece, drop: bool)
    ensures AllLegal(b, p, drop, Successors(b, p, drop))
    ensures Sorted(Successors(b, p, drop))
  {
    RowsFacts(b, p, drop, 5);
  }

  lemma {:induction false} StepsContain(b: Board, p: Piece, src: Pos, e: nat, d: nat)
    requires e < d <= 8
    ensures forall x :: x in Step(b, p, src, e) ==> x in Steps(b, p, src, d)
  {
    if e < d - 1 {
      StepsContain(b, p, src, e, d - 1);
    }
  }

  lemma {:induction false} RowContains(b: Board, p: Piece, drop: bool, q: Pos, c: nat)
    requires q.1 < c <= 5
    ensures forall x :: x in CellSuccessors(b, p, drop, q) ==> x in RowSuccessors(b, p, drop, q.0, c)
  {
    if q.1 < c - 1 {
      RowContains(b, p, drop, q, c - 1);
    }
  }

  lemma {:induction false} RowsContain(b: Board, p: Piece, drop: bool, q: Pos, n: nat)
    requires q.0 < n <= 5
    ensures forall x :: x in CellSuccessors(b, p, drop, q) ==> x in RowsSuccessors(b, p, drop, n)
  {
    RowContains(b, p, drop, q, 5);
    if q.0 < n - 1 {
      RowsContain(b, p, drop, q, n - 1);
    }
  }

  /** Drop mode: each successor places p's piece on an empty cell and changes nothing else. */
  lemma DropSuccessorBoards(b: Board, p: Piece)
    ensures var s := Successors(b, p, true);
      forall j :: 0 <= j < |s| ==>
        s[j].1.Drop? && At(b, s[j].1.dest) == Empty
        && At(s[j].0, s[j].1.dest) == Occupied(p)
        && (forall q: Pos :: q != s[j].1.dest ==> At(s[j].0, q) == At(b, q))
        && CountCells(s[j].0, Occupied(p)) == CountCells(b, Occupied(p)) + 1
        && CountCells(s[j].0, Occupied(Other(p))) == CountCells(b, Occupied(Other(p)))
        && CountCells(s[j].0, Empty) + 1 == CountCells(b, Empty)
  {
    var s := Successors(b, p, true);
    SuccessorsFacts(b, p, true);
    forall j | 0 <= j < |s|
      ensures CountCells(s[j].0, Occupied(p)) == CountCells(b, Occupied(p)) + 1
      ensures CountCells(s[j].0, Occupied(Other(p))) == CountCells(b, Occupied(Other(p)))
      ensures CountCells(s[j].0, Empty) + 1 == CountCells(b, Empty)
    {
      assert Legal(b, p, true, s[j]);
      CountCellsPut(b, s[j].1.dest, Occupied(p), Occupied(p));
      CountCellsPut(b, s[j].1.dest, Occupied(p), Occupied(Other(p)));
      CountCellsPut(b, s[j].1.dest, Occupied(p), Empty);
    }
  }

  /** Drop mode: one successor per empty cell, in row-major order of the cells. */
  lemma DropSuccessorOrder(b: Board, p: Piece)
    ensures var s := Successors(b, p, true);
      (forall i, j :: 0 <= i < j < |s| ==> Key(s[i].1.dest) < Key(s[j].1.dest))
      && (forall q: Pos :: At(b, q) == Empty ==> exists j :: 0 <= j < |s| && s[j].1 == Drop(q))
  {
    var s := Successors(b, p, true);
    SuccessorsFacts(b, p, true);
    forall i, j | 0 <= i < j < |s|
      ensures Key(s[i].1.dest) < Key(s[j].1.dest)
    {
      assert Legal(b, p, true, s[i]) && Legal(b, p, true, s[j]);
    }
    forall q: Pos | At(b, q) == Empty
      ensures exists j :: 0 <= j < |s| && s[j].1 == Drop(q)
    {
      RowsContain(b, p, true, q, 5);
      var x := (Put(b, q, Occupied(p)), Drop(q));
      assert x in CellSuccessors(b, p, true, q);
      var j :| 0 <= j < |s| && s[j] == x;
    }
  }

  lemma {:induction false} RowDropCount(b: Board, p: Piece, r: Index, c: nat)
    requires c <= 5
    ensures |RowSuccessors(b, p, true, r, c)| == CountIn(b[r][..c], Empty)
  {
    if c > 0 {
      RowDropCount(b, p, r, c - 1);
      assert b[r][..c][..c - 1] == b[r][..c - 1];
    }
  }

  lemma {:induction false} RowsDropCount(b: Board, p: Piece, n: nat)
    requires n <= 5
    ensures |RowsSuccessors(b, p, true, n)| == CountRows(b, Empty, n)
  {
    if n > 0 {
      RowsDropCount(b, p, n - 1);
      RowDropCount(b, p, n - 1, 5);
      assert b[n - 1][..5] == b[n - 1];
    }
  }

  /** Drop mode yields exactly as many successors as the board has empty cells. */
  lemma DropSuccessorCount(b: Board, p: Piece)
    ensures |Successors(b, p, true)| == CountCells(b, Empty)
  {
    RowsDropCount(b, p, 5);
  }

  /** Relocation mode: each successor moves one of p's pieces one king step into an empty
      cell and clears its source; nothing else changes and every count is preserved. */
  lemma RelocationSuccessorBoards(b: Board, p: Piece)
    ensures var s := Successors(b, p, false);
      forall j :: 0 <= j < |s| ==>
        s[j].1.Relocate? && At(b, s[j].1.src) == Occupied(p) && At(b, s[j].1.dest) == Empty
        && IsKingStep(s[j].1.src, s[j].1.dest)
        && At(s[j].0, s[j].1.dest) == Occupied(p) && At(s[j].0, s[j].1.src) == Empty
        && (forall q: Pos :: q != s[j].1.dest && q != s[j].1.src ==> At(s[j].0, q) == At(b, q))
        && (forall x: Cell :: CountCells(s[j].0, x) == CountCells(b, x))
  {
    var s := Successors(b, p, false);
    SuccessorsFacts(b, p, false);
    forall j | 0 <= j < |s|
      ensures Legal(b, p, false, s[j])
      ensures At(s[j].0, s[j].1.dest) == Occupied(p) && At(s[j].0, s[j].1.src) == Empty
      ensures forall x: Cell :: CountCells(s[j].0, x) == CountCells(b, x)
    {
      assert Legal(b, p, false, s[j]);
      var m := s[j].1;
      var mid := Put(b, m.dest, Occupied(p));
      forall x: Cell
        ensures CountCells(s[j].0, x) == CountCells(b, x)
      {
        CountCellsPut(b, m.dest, Occupied(p), x);
        CountCellsPut(mid, m.src, Empty, x);
      }
    }
  }

  /** Relocation mode: successors are ordered by source cell (row-major), then by the
      position of the step in Directions. */
  lemma RelocationSuccessorOrder(b: Board, p: Piece)
    ensures var s := Successors(b, p, false);
      forall i, j :: 0 <= i < j < |s| ==>
        s[i].1.Relocate? && s[j].1.Relocate? &&
        (Key(s[i].1.src) < Key(s[j].1.src)
         || (s[i].1.src == s[j].1.src && DirIndex(s[i].1.src, s[i].1.dest) < DirIndex(s[j].1.src, s[j].1.dest)))
  {
    var s := Successors(b, p, false);
    SuccessorsFacts(b, p, false);
    forall i, j | 0 <= i < j < |s|
      ensures s[i].1.Relocate? && s[j].1.Relocate?
      ensures Key(s[i].1.src) < Key(s[j].1.src)
           || (s[i].1.src == s[j].1.src && DirIndex(s[i].1.src, s[i].1.dest) < DirIndex(s[j].1.src, s[j].1.dest))
    {
      assert Legal(b, p, false, s[i]) && Legal(b, p, false, s[j]);
      KingStepDirIndex(s[i].1.src, s[i].1.dest);
      KingStepDirIndex(s[j].1.src, s[j].1.dest);
    }
  }

  /** Relocation mode misses no move: every king step of one of p's pieces into an empty
      cell is generated. */
  lemma RelocationSuccessorsComplete(b: Board, p: Piece, src: Pos, dst: Pos)
    requires At(b, src) == Occupied(p) && IsKingStep(src, dst) && At(b, dst) == Empty
    ensures var s := Successors(b, p, false);
      exists j :: 0 <= j < |s| && s[j] == (Put(Put(b, dst, Occupied(p)), src, Empty), Relocate(dst, src))
  {
    var s := Successors(b, p, false);
    var d := DirIndex(src, dst);
    KingStepDirIndex(src, dst);
    var x := (Put(Put(b, dst, Occupied(p)), src, Empty), Relocate(dst, src));
    assert Step(b, p, src, d) == [x];
    StepsContain(b, p, src, d, 8);
    RowsContain(b, p, false, src, 5);
    assert x in CellSuccessors(b, p, false, src);
  }

  /** Every king step is one of the eight Directions, at position DirIndex. */
  lemma KingStepDirIndex(src: Pos, dst: Pos)
    requires IsKingStep(src, dst)
    ensures 0 <= DirIndex(src, dst) < 8
    ensures dst.0 == src.0 + Directions[DirIndex(src, dst)].0
    ensures dst.1 == src.1 + Directions[DirIndex(src, dst)].1
  {
  }

  /** A drop fills one empty cell; a relocation leaves the number of empty cells alone. */
  lemma SuccessorEmptyCount(b: Board, p: Piece, drop: bool, j: nat)
    requires j < |Successors(b, p, drop)|
    ensures var s := Successors(b, p, drop)[j].0;
      if drop then CountCells(s, Empty) + 1 == CountCells(b, Empty)
      else CountCells(s, Empty) == CountCells(b, Empty)
  {
    if drop {
      DropSuccessorBoards(b, p);
    } else {
      RelocationSuccessorBoards(b, p);
    }
  }

  /** Generated moves are pairwise different. */
  lemma SuccessorMovesDistinct(b: Board, p: Piece, drop: bool)
    ensures var s := Successors(b, p, drop);
      forall i, j :: 0 <= i < j < |s| ==> s[i].1 != s[j].1
  {
    SuccessorsFacts(b, p, drop);
  }
}
