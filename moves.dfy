/** Applying a move to a board (place_piece) and validating a move supplied by the
    opponent (the checks of opponent_move). */
module Moves {
  import opened TeekoBoard
  import opened Generation

  /** The three rejections of opponent_move, in the order they are checked. */
  datatype MoveError =
    | NoPieceThere         // the source does not hold the mover's piece (game.py:131)
    | NotAdjacent          // the source is more than one king step away (game.py:135)
    | DestinationOccupied  // the destination is not empty (game.py:137)

  datatype Outcome = Accepted | Rejected(error: MoveError)

  function Abs(x: int): nat
  {
    if x < 0 then -x else x
  }

  /** The validation opponent_move performs for player p before placing the piece. */
  function Validate(b: Board, m: Move, p: Piece): (o: Outcome)
    ensures o == Rejected(NoPieceThere) <==> m.Relocate? && At(b, m.src) != Occupied(p)
    ensures o == Rejected(NotAdjacent) <==>
      m.Relocate? && At(b, m.src) == Occupied(p)
      && (Abs(m.src.0 - m.dest.0) > 1 || Abs(m.src.1 - m.dest.1) > 1)
    ensures o == Rejected(DestinationOccupied) <==>
      (m.Drop? || (At(b, m.src) == Occupied(p) && Abs(m.src.0 - m.dest.0) <= 1 && Abs(m.src.1 - m.dest.1) <= 1))
      && At(b, m.dest) != Empty
  {
    if m.Relocate? && At(b, m.src) != Occupied(p) then Rejected(NoPieceThere)
    else if m.Relocate? && (Abs(m.src.0 - m.dest.0) > 1 || Abs(m.src.1 - m.dest.1) > 1) then Rejected(NotAdjacent)
    else if At(b, m.dest) != Empty then Rejected(DestinationOccupied)
    else Accepted
  }

  /** place_piece(move, p): clear the source of a relocation, then put p on the destination. */
  function Apply(b: Board, m: Move, p: Piece): (r: Board)
    ensures At(r, m.dest) == Occupied(p)
    ensures m.Relocate? && m.src != m.dest ==> At(r, m.src) == Empty
    ensures forall q: Pos :: q != m.dest && (m.Drop? || q != m.src) ==> At(r, q) == At(b, q)
  {
    var cleared := if m.Relocate? then Put(b, m.src, Empty) else b;
    Put(cleared, m.dest, Occupied(p))
  }

  /** Every generated move passes validation for the same player, and applying it reproduces
      the successor board exactly. */
  lemma GeneratedMoveApplies(b: Board, p: Piece, drop: bool, j: nat)
    requires j < |Successors(b, p, drop)|
    ensures var x := Successors(b, p, drop)[j];
      Validate(b, x.1, p) == Accepted && Apply(b, x.1, p) == x.0
  {
    var x := Successors(b, p, drop)[j];
    SuccessorsFacts(b, p, drop);
    assert Legal(b, p, drop, x);
    if !drop {
      PutCommutes(b, x.1.dest, Occupied(p), x.1.src, Empty);
    }
  }

  /** Validation accepts only generated moves: an accepted drop is a drop successor and an
      accepted relocation is a relocation successor. */
  lemma AcceptedMoveIsGenerated(b: Board, p: Piece, m: Move)
    requires Validate(b, m, p) == Accepted
    ensures var s := Successors(b, p, m.Drop?);
      exists j :: 0 <= j < |s| && s[j].1 == m
  {
    if m.Drop? {
      DropSuccessorOrder(b, p);
    } else {
      assert IsKingStep(m.src, m.dest);
      RelocationSuccessorsComplete(b, p, m.src, m.dest);
    }
  }

  /** The validator accepts a move for p exactly when successor generation produces it. */
  lemma ValidateIffGenerated(b: Board, p: Piece, m: Move)
    ensures var s := Successors(b, p, m.Drop?);
      Validate(b, m, p) == Accepted <==> exists j :: 0 <= j < |s| && s[j].1 == m
  {
    var s := Successors(b, p, m.Drop?);
    if Validate(b, m, p) == Accepted {
      AcceptedMoveIsGenerated(b, p, m);
    }
    if j :| 0 <= j < |s| && s[j].1 == m {
      GeneratedMoveApplies(b, p, m.Drop?, j);
    }
  }

  /** An accepted drop adds one piece of p and an accepted relocation keeps every count;
      the other colour's count never changes. */
  lemma AcceptedMoveCounts(b: Board, m: Move, p: Piece)
    requires Validate(b, m, p) == Accepted
    ensures CountCells(Apply(b, m, p), Occupied(p)) == CountCells(b, Occupied(p)) + (if m.Drop? then 1 else 0)
    ensures CountCells(Apply(b, m, p), Occupied(Other(p))) == CountCells(b, Occupied(Other(p)))
    ensures CountCells(Apply(b, m, p), Empty) == CountCells(b, Empty) - (if m.Drop? then 1 else 0)
  {
    var cleared := if m.Relocate? then Put(b, m.src, Empty) else b;
    forall x: Cell
      ensures CountCells(cleared, x)
           == CountCells(b, x) - (if m.Relocate? && x == Occupied(p) then 1 else 0)
                               + (if m.Relocate? && x == Empty then 1 else 0)
    {
      if m.Relocate? {
        CountCellsPut(b, m.src, Empty, x);
      }
    }
    assert At(cleared, m.dest) == Empty;
    forall x: Cell
      ensures CountCells(Apply(b, m, p), x)
           == CountCells(cleared, x) - (if x == Empty then 1 else 0) + (if x == Occupied(p) then 1 else 0)
    {
      CountCellsPut(cleared, m.dest, Occupied(p), x);
    }
  }
}
