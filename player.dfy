/** The engine object TeekoPlayer: its colour, the board it keeps, and the operations it
    performs on boards (successors, evaluation, alpha-beta search, move choice) and on its
    own board (placing pieces, validating the opponent's move). */
module Player {
  import opened TeekoBoard
  import opened Generation
  import opened Terminal
  import opened Heuristic
  import opened Search
  import opened Moves

  datatype Option<T> = None | Some(value: T)

  lemma AppendAssoc<T>(a: seq<T>, b: seq<T>, c: seq<T>)
    ensures (a + b) + c == a + (b + c)
  {
  }

  /** Position k of s holds a successor of maximal evaluation, and no earlier one does. */
  ghost predicate FirstMaximum(s: seq<Successor>, me: Piece, k: nat)
    requires k < |s|
  {
    (forall j :: 0 <= j < |s| ==> Evaluate(s[j].0, me) <= Evaluate(s[k].0, me))
    && (forall j :: 0 <= j < k ==> Evaluate(s[j].0, me) < Evaluate(s[k].0, me))
  }

  /** When some successor wins outright for me, the first maximum scores 1, the highest score
      game_alg can give. */
  lemma FirstMaximumScoresWin(s: seq<Successor>, me: Piece, k: nat, j: nat)
    requires k < |s| && j < |s| && FirstMaximum(s, me, k)
    requires GameValue(s[j].0, me) == 1
    ensures Evaluate(s[k].0, me) == 1.0
  {
    EvaluateRange(s[j].0, me);
    EvaluateRange(s[k].0, me);
  }

  /** Python's max(util, key=util.get) over a dict whose keys are order, in insertion
      order: the position of the first key of maximal value. */
  method MaxByKey<K>(order: seq<K>, util: map<K, Score>) returns (k: nat)
    requires |order| > 0
    requires forall j :: 0 <= j < |order| ==> order[j] in util
    ensures k < |order|
    ensures forall j :: 0 <= j < |order| ==> Le(util[order[j]], util[order[k]])
    ensures forall j :: 0 <= j < k ==> Lt(util[order[j]], util[order[k]])
  {
    var best := order[0];
    k := 0;
    for i := 1 to |order|
      invariant k < i && best == order[k]
      invariant forall j :: 0 <= j < i ==> Le(util[order[j]], util[best])
      invariant forall j :: 0 <= j < k ==> Lt(util[order[j]], util[best])
    {
      if Lt(util[best], util[order[i]]) {
        best := order[i];
        k := i;
      }
    }
  }

  class TeekoPlayer {
    /** my_piece: the engine's colour. */
    const me: Piece
    /** opp: the other colour. */
    const opp: Piece := Other(me)
    /** The engine's copy of the game board. */
    var board: Board

    constructor (me: Piece)
      ensures this.me == me && board == EmptyBoard
    {
      this.me := me;
      board := EmptyBoard;
    }

    /** succ(state, drop): every successor of state for my piece, in generation order. */
    method Succ(state: Board, drop: bool) returns (successors: seq<Successor>)
      ensures successors == Successors(state, me, drop)
    {
      if drop {
        successors := DropSuccessors(state);
      } else {
        successors := RelocationSuccessors(state);
      }
    }

    /** The drop branch of succ: a drop of my piece on each empty cell, row by row. */
    method DropSuccessors(state: Board) returns (successors: seq<Successor>)
      ensures successors == Successors(state, me, true)
    {
      successors := [];
      for r := 0 to 5
        invariant successors == RowsSuccessors(state, me, true, r)
      {
        for c := 0 to 5
          invariant successors == RowsSuccessors(state, me, true, r) + RowSuccessors(state, me, true, r, c)
        {
          ghost var cell := CellSuccessors(state, me, true, (r, c));
          if state[r][c] == Empty {
            var newState := Put(state, (r, c), Occupied(me));
            successors := successors + [(newState, Drop((r, c)))];
          }
          assert successors == RowsSuccessors(state, me, true, r) + (RowSuccessors(state, me, true, r, c) + cell);
        }
      }
    }

    /** The relocation branch of succ: every king step of each of my pieces, row by row. */
    method RelocationSuccessors(state: Board) returns (successors: seq<Successor>)
      ensures successors == Successors(state, me, false)
    {
      successors := [];
      for r := 0 to 5
        invariant successors == RowsSuccessors(state, me, false, r)
      {
        for c := 0 to 5
          invariant successors == RowsSuccessors(state, me, false, r) + RowSuccessors(state, me, false, r, c)
        {
          if state[r][c] == Occupied(me) {
            var moves := PieceSteps(state, (r, c));
            successors := successors + moves;
          }
          AppendAssoc(RowsSuccessors(state, me, false, r), RowSuccessors(state, me, false, r, c),
            CellSuccessors(state, me, false, (r, c)));
        }
      }
    }

    /** The inner loop of succ's relocation mode: every king step of the piece at src into
        an empty in-bounds neighbour, in the order of the direction list. */
    method PieceSteps(state: Board, src: Pos) returns (moves: seq<Successor>)
      ensures moves == Steps(state, me, src, 8)
    {
      var (r, c) := src;
      var directions := Directions;
      moves := [];
      for d := 0 to 8
        invariant moves == Steps(state, me, src, d)
      {
        var nr, nc := r + directions[d].0, c + directions[d].1;
        if 0 <= nr < 5 && 0 <= nc < 5 && state[nr][nc] == Empty {
          var newState := Put(state, (nr, nc), Occupied(me));
          newState := Put(newState, (r, c), Empty);
          moves := moves + [(newState, Relocate((nr, nc), (r, c)))];
        }
      }
    }

    /** game_alg(state): the terminal value, or the open-line heuristic for my piece. */
    method GameAlg(state: Board) returns (val: real)
      ensures val == Evaluate(state, me)
    {
      var terminalVal := GameValue(state, me);
      if terminalVal != 0 {
        return terminalVal as real;
      }
      var lines := CollectLines(state);
      var myMax, oppMax := OpenMaxima(lines);
      val := (myMax as int - oppMax as int) as real / 4.0;
    }

    /** The counting loop of game_alg: the largest count of my pieces and of the opponent's
        over the lines that still have an empty cell. */
    method OpenMaxima(lines: seq<seq<Cell>>) returns (myMax: nat, oppMax: nat)
      ensures myMax == OpenMax(lines, Occupied(me)) && oppMax == OpenMax(lines, Occupied(opp))
    {
      myMax, oppMax := 0, 0;
      for k := 0 to |lines|
        invariant myMax == OpenMax(lines[..k], Occupied(me))
        invariant oppMax == OpenMax(lines[..k], Occupied(opp))
      {
        var line := lines[k];
        var myCount := CountIn(line, Occupied(me));
        var oppCount := CountIn(line, Occupied(opp));
        OpenMaxExtend(lines, k, Occupied(me));
        OpenMaxExtend(lines, k, Occupied(opp));
        if Empty in line {
          myMax := if myMax < myCount then myCount else myMax;
          oppMax := if oppMax < oppCount then oppCount else oppMax;
        }
      }
      assert lines[..|lines|] == lines;
    }

    /** The lines game_alg collects: each row followed by the column of the same index,
        the two diagonals, then the 2x2 squares by row and column of their corner. */
    method CollectLines(state: Board) returns (lines: seq<seq<Cell>>)
      ensures lines == Lines(state)
    {
      lines := [];
      for i := 0 to 5
        invariant lines == RowsAndColumns(state, i)
      {
        var horizontalLine := state[i];
        var verticalLine := Column(state, i);
        lines := lines + [horizontalLine, verticalLine];
      }
      var diagonals := [Diagonal(state), AntiDiagonal(state)];
      lines := lines + diagonals;
      for i := 0 to 4
        invariant lines == RowsAndColumns(state, 5) + diagonals + Squares(state, i)
      {
        for j := 0 to 4
          invariant lines == RowsAndColumns(state, 5) + diagonals + Squares(state, i) + SquareRow(state, i, j)
        {
          var square := [state[i][j], state[i + 1][j], state[i][j + 1], state[i + 1][j + 1]];
          lines := lines + [square];
        }
      }
    }

    /** max_value(state, depth, alpha, beta): fail-soft alpha-beta at a maximising node. */
    method MaxValue(state: Board, depth: nat, alpha: Score, beta: Score) returns (v: Score)
      ensures IsLeaf(state, me, depth) ==> v == Finite(Evaluate(state, me))
      ensures Lt(alpha, beta) ==> FailSoft(v, Minimax(me, state, depth, true), alpha, beta)
      decreases CountCells(state, Empty), Budget(depth)
    {
      if depth == 0 || GameValue(state, me) != 0 {
        var val := GameAlg(state);
        return Finite(val);
      }
      v := NegInf;
      var a := alpha;
      var successors := Succ(state, depth > 3);
      ghost var total := Best(me, state, depth, true, |successors|);
      assert Minimax(me, state, depth, true) == total;
      ghost var cut := false;
      var i := 0;
      while i < |successors|
        invariant 0 <= i <= |successors|
        invariant !cut
        invariant a == Max(alpha, v)
        invariant Lt(alpha, beta) ==> Lt(a, beta)
        invariant Lt(alpha, beta) ==>
          Le(Best(me, state, depth, true, i), v) && (Lt(alpha, v) ==> Le(v, Best(me, state, depth, true, i)))
        decreases |successors| - i
      {
        ChildDecreases(state, me, depth, i);
        var w := MinValue(successors[i].0, depth + 1, a, beta);
        ghost var mi := Best(me, state, depth, true, i);
        if Lt(alpha, beta) {
          MaxStep(alpha, beta, v, w, mi, Minimax(me, successors[i].0, depth + 1, false));
        }
        v := Max(v, w);
        a := Max(a, v);
        if Le(beta, a) {
          if Lt(alpha, beta) {
            BestMonotone(me, state, depth, true, i + 1, |successors|);
            MaxCutoff(alpha, beta, v, total);
          }
          cut := true;
          break;
        }
        i := i + 1;
      }
      if Lt(alpha, beta) && !cut {
        MaxExhausted(alpha, beta, v, total);
      }
    }

    /** min_value(state, depth, alpha, beta): fail-soft alpha-beta at a minimising node. */
    method MinValue(state: Board, depth: nat, alpha: Score, beta: Score) returns (v: Score)
      ensures IsLeaf(state, me, depth) ==> v == Finite(Evaluate(state, me))
      ensures Lt(alpha, beta) ==> FailSoft(v, Minimax(me, state, depth, false), alpha, beta)
      decreases CountCells(state, Empty), Budget(depth)
    {
      if depth == 0 || GameValue(state, me) != 0 {
        var val := GameAlg(state);
        return Finite(val);
      }
      v := PosInf;
      var b := beta;
      var successors := Succ(state, depth > 3);
      ghost var total := Best(me, state, depth, false, |successors|);
      assert Minimax(me, state, depth, false) == total;
      ghost var cut := false;
      var i := 0;
      while i < |successors|
        invariant 0 <= i <= |successors|
        invariant !cut
        invariant b == Min(beta, v)
        invariant Lt(alpha, beta) ==> Lt(alpha, b)
        invariant Lt(alpha, beta) ==>
          Le(v, Best(me, state, depth, false, i)) && (Lt(v, beta) ==> Le(Best(me, state, depth, false, i), v))
        decreases |successors| - i
      {
        ChildDecreases(state, me, depth, i);
        var w := MaxValue(successors[i].0, depth + 1, alpha, b);
        ghost var mi := Best(me, state, depth, false, i);
        if Lt(alpha, beta) {
          MinStep(alpha, beta, v, w, mi, Minimax(me, successors[i].0, depth + 1, true));
        }
        v := Min(v, w);
        b := Min(b, v);
        if Le(b, alpha) {
          if Lt(alpha, beta) {
            BestMonotone(me, state, depth, false, i + 1, |successors|);
            MinCutoff(alpha, beta, v, total);
          }
          cut := true;
          break;
        }
        i := i + 1;
      }
      if Lt(alpha, beta) && !cut {
        MinExhausted(alpha, beta, v, total);
      }
    }
  
    /** make_move(state): score every successor of the current phase with max_value at
        depth 0 and pick the first move of maximal score in generation order. Python's max
        raises on an empty dict; that case yields None. */
    method MakeMove(state: Board) returns (move: Option<Move>)
      ensures var s := Successors(state, me, PieceCount(state) < 8);
        move.None? <==> |s| == 0
      ensures var s := Successors(state, me, PieceCount(state) < 8);
        move.Some? ==> exists k :: 0 <= k < |s| && s[k].1 == move.value && FirstMaximum(s, me, k)
      ensures move.Some? ==> (move.value.Drop? <==> PieceCount(state) < 8)
      ensures move.Some? ==> Validate(state, move.value, me) == Accepted
    {
      var count := PieceCount(state);
      var dropPhase := count < 8;
      var tempState := state;
      var successors := Succ(tempState, dropPhase);
      SuccessorMovesDistinct(state, me, dropPhase);
      var util, order := ScoreSuccessors(successors);
      if |order| == 0 {
        return None;
      }
      var k := MaxByKey(order, util);
      move := Some(order[k]);
      assert FirstMaximum(successors, me, k) by {
        forall j | 0 <= j < |successors|
          ensures Evaluate(successors[j].0, me) <= Evaluate(successors[k].0, me)
        {
          assert Le(util[order[j]], util[order[k]]);
        }
        forall j | 0 <= j < k
          ensures Evaluate(successors[j].0, me) < Evaluate(successors[k].0, me)
        {
          assert Lt(util[order[j]], util[order[k]]);
        }
      }
      assert Legal(state, me, dropPhase, successors[k]) by {
        SuccessorsFacts(state, me, dropPhase);
      }
      GeneratedMoveApplies(state, me, dropPhase, k);
    }

    /** The util dict of make_move: each successor's move mapped to max_value(succ, 0, -inf, inf),
        with its keys in insertion order. The moves are distinct, so every key is new. */
    method ScoreSuccessors(successors: seq<Successor>) returns (util: map<Move, Score>, order: seq<Move>)
      requires forall i, j :: 0 <= i < j < |successors| ==> successors[i].1 != successors[j].1
      ensures |order| == |successors|
      ensures forall j :: 0 <= j < |order| ==> order[j] == successors[j].1
      ensures forall m :: m in util <==> m in order
      ensures forall j :: 0 <= j < |order| ==> util[order[j]] == Finite(Evaluate(successors[j].0, me))
    {
      util := map[];
      order := [];
      for i := 0 to |successors|
        invariant |order| == i
        invariant forall j :: 0 <= j < i ==> order[j] == successors[j].1
        invariant forall m :: m in util <==> m in order
        invariant forall j :: 0 <= j < i ==> util[order[j]] == Finite(Evaluate(successors[j].0, me))
      {
        var (succ, piece) := successors[i];
        var score := MaxValue(succ, 0, NegInf, PosInf);
        if piece !in util {
          order := order + [piece];
        }
        util := util[piece := score];
      }
    }

    /** place_piece(move, piece): the board becomes the board with the move applied. */
    method PlacePiece(m: Move, piece: Piece)
      modifies this
      ensures board == Apply(old(board), m, piece)
    {
      if m.Relocate? {
        board := Put(board, m.src, Empty);
      }
      board := Put(board, m.dest, Occupied(piece));
    }

    /** opponent_move(move): reject the move with the first failing check, otherwise place
        the opponent's piece. A rejected move leaves the board as it was. */
    method OpponentMove(m: Move) returns (outcome: Outcome)
      modifies this
      ensures outcome == Validate(old(board), m, opp)
      ensures outcome == Accepted ==> board == Apply(old(board), m, opp)
      ensures outcome != Accepted ==> board == old(board)
    {
      if m.Relocate? {
        var (sourceRow, sourceCol) := m.src;
        if board[sourceRow][sourceCol] != Occupied(opp) {
          return Rejected(NoPieceThere);
        }
        if Abs(sourceRow - m.dest.0) > 1 || Abs(sourceCol - m.dest.1) > 1 {
          return Rejected(NotAdjacent);
        }
      }
      if board[m.dest.0][m.dest.1] != Empty {
        return Rejected(DestinationOccupied);
      }
      PlacePiece(m, opp);
      outcome := Accepted;
    }
  }
}
