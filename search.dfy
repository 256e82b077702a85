/** The search tree that max_value/min_value explore, and its plain minimax value, against
    which the alpha-beta procedure is proved. */
module Search {
  import opened TeekoBoard
  import opened Generation
  import opened Terminal
  import opened Heuristic

  /** A score with the infinities float('-inf') and float('inf') used as initial values. */
  datatype Score = NegInf | Finite(value: real) | PosInf

  /** The order of scores: -inf below every finite score, +inf above. */
  predicate Le(a: Score, b: Score)
  {
    a.NegInf? || b.PosInf? || (a.Finite? && b.Finite? && a.value <= b.value)
  }

  predicate Lt(a: Score, b: Score)
  {
    !Le(b, a)
  }

  /** Python's max(a, b) on scores. */
  function Max(a: Score, b: Score): (m: Score)
    ensures Le(a, m) && Le(b, m) && (m == a || m == b)
    ensures Le(b, a) ==> m == a
  {
    if Lt(a, b) then b else a
  }

  /** Python's min(a, b) on scores. */
  function Min(a: Score, b: Score): (m: Score)
    ensures Le(m, a) && Le(m, b) && (m == a || m == b)
    ensures Le(a, b) ==> m == a
  {
    if Lt(b, a) then b else a
  }

  /** The part of the termination measure that lets the three relocation plies at depths
      1 to 3 count down: a relocation keeps the number of empty cells, a drop (depth > 3)
      lowers it. */
  function Budget(depth: nat): nat
  {
    if depth <= 3 then 4 - depth else 0
  }

  /** The search node at s and depth is a leaf: depth 0 or a decided board. */
  predicate IsLeaf(s: Board, me: Piece, depth: nat)
  {
    depth == 0 || GameValue(s, me) != 0
  }

  /** Moving to any child of a non-leaf node lowers the measure (empty cells, Budget(depth)). */
  lemma ChildDecreases(s: Board, me: Piece, depth: nat, j: nat)
    requires j < |Successors(s, me, depth > 3)|
    ensures var c := Successors(s, me, depth > 3)[j].0;
      CountCells(c, Empty) < CountCells(s, Empty)
      || (CountCells(c, Empty) == CountCells(s, Empty) && Budget(depth + 1) < Budget(depth))
  {
    SuccessorEmptyCount(s, me, depth > 3, j);
  }

  /** The minimax value of the tree max_value/min_value walk: children are always generated
      with me's piece, in drop mode exactly when depth > 3, one ply deeper. */
  ghost function Minimax(me: Piece, s: Board, depth: nat, maximizing: bool): Score
    decreases CountCells(s, Empty), Budget(depth), 1, 0
  {
    if IsLeaf(s, me, depth) then Finite(Evaluate(s, me))
    else Best(me, s, depth, maximizing, |Successors(s, me, depth > 3)|)
  }

  /** The best minimax value among the first n children (maximum or minimum). */
  ghost function Best(me: Piece, s: Board, depth: nat, maximizing: bool, n: nat): Score
    requires n <= |Successors(s, me, depth > 3)|
    decreases CountCells(s, Empty), Budget(depth), 0, n
  {
    if n == 0 then (if maximizing then NegInf else PosInf)
    else
      var child := Successors(s, me, depth > 3)[n - 1].0;
      ChildDecreases(s, me, depth, n - 1);
      var c := Minimax(me, child, depth + 1, !maximizing);
      var rest := Best(me, s, depth, maximizing, n - 1);
      if maximizing then Max(rest, c) else Min(rest, c)
  }

  /** The best value can only improve as more children are considered. */
  lemma {:induction false} BestMonotone(me: Piece, s: Board, depth: nat, maximizing: bool, i: nat, n: nat)
    requires i <= n <= |Successors(s, me, depth > 3)|
    ensures maximizing ==> Le(Best(me, s, depth, maximizing, i), Best(me, s, depth, maximizing, n))
    ensures !maximizing ==> Le(Best(me, s, depth, maximizing, n), Best(me, s, depth, maximizing, i))
    decreases n - i
  {
    if i < n {
      BestMonotone(me, s, depth, maximizing, i, n - 1);
    }
  }

  /** v is a fail-soft alpha-beta result for true value m in the window (alpha, beta):
      exact inside the window, an upper bound at or below alpha, a lower bound at or above beta. */
  predicate FailSoft(v: Score, m: Score, alpha: Score, beta: Score)
  {
    (Le(v, alpha) ==> Le(m, v))
    && (Le(beta, v) ==> Le(v, m))
    && (Lt(alpha, v) && Lt(v, beta) ==> v == m)
  }

  /** One iteration of max_value's loop keeps its invariant: v bounds the children seen so
      far from above, exactly once it exceeds alpha; a cut-off leaves v a lower bound at or
      above beta. mi is the best of the earlier children, c the true value of the new one and
      w what the search returned for it in the window (Max(alpha, v), beta). */
  lemma MaxStep(alpha: Score, beta: Score, v: Score, w: Score, mi: Score, c: Score)
    requires Lt(Max(alpha, v), beta)
    requires Le(mi, v) && (Lt(alpha, v) ==> Le(v, mi))
    requires FailSoft(w, c, Max(alpha, v), beta)
    ensures Max(Max(alpha, v), Max(v, w)) == Max(alpha, Max(v, w))
    ensures var v' := Max(v, w);
      if Lt(Max(alpha, v'), beta) then Le(Max(mi, c), v') && (Lt(alpha, v') ==> Le(v', Max(mi, c)))
      else Le(beta, v') && Le(v', Max(mi, c))
  {
  }

  /** The mirror image of MaxStep for min_value's loop. */
  lemma MinStep(alpha: Score, beta: Score, v: Score, w: Score, mi: Score, c: Score)
    requires Lt(alpha, Min(beta, v))
    requires Le(v, mi) && (Lt(v, beta) ==> Le(mi, v))
    requires FailSoft(w, c, alpha, Min(beta, v))
    ensures Min(Min(beta, v), Min(v, w)) == Min(beta, Min(v, w))
    ensures var v' := Min(v, w);
      if Lt(alpha, Min(beta, v')) then Le(v', Min(mi, c)) && (Lt(v', beta) ==> Le(Min(mi, c), v'))
      else Le(v', alpha) && Le(Min(mi, c), v')
  {
  }

  /** With the full window (-inf, +inf) a fail-soft result is the exact minimax value. */
  lemma FullWindowExact(v: Score, m: Score)
    requires FailSoft(v, m, NegInf, PosInf)
    ensures v == m
  {
  }

  /** max_value stopped at a cut-off: v reached beta and is at most the true value. */
  lemma MaxCutoff(alpha: Score, beta: Score, v: Score, m: Score)
    requires Lt(alpha, beta) && Le(beta, v) && Le(v, m)
    ensures FailSoft(v, m, alpha, beta)
  {
  }

  /** max_value ran through every child without a cut-off. */
  lemma MaxExhausted(alpha: Score, beta: Score, v: Score, m: Score)
    requires Lt(Max(alpha, v), beta)
    requires Le(m, v) && (Lt(alpha, v) ==> Le(v, m))
    ensures FailSoft(v, m, alpha, beta)
  {
  }

  /** min_value stopped at a cut-off: v fell to alpha and is at least the true value. */
  lemma MinCutoff(alpha: Score, beta: Score, v: Score, m: Score)
    requires Lt(alpha, beta) && Le(v, alpha) && Le(m, v)
    ensures FailSoft(v, m, alpha, beta)
  {
  }

  /** min_value ran through every child without a cut-off. */
  lemma MinExhausted(alpha: Score, beta: Score, v: Score, m: Score)
    requires Lt(alpha, Min(beta, v))
    requires Le(v, m) && (Lt(v, beta) ==> Le(m, v))
    ensures FailSoft(v, m, alpha, beta)
  {
  }
}
