/** Terminal detection: game_value scans the winning windows in a fixed order and reports
    the owner of the first complete one. */
module Terminal {
  import opened TeekoBoard

  /** Four cells that form a winning shape, in the order the engine compares them. */
  type Window = w: seq<Pos> | |w| == 4 witness [(0, 0), (0, 0), (0, 0), (0, 0)]

  /** Row r, columns i .. i+3. */
  function Horizontal(r: Index, i: int): Window
    requires 0 <= i <= 1
  {
    [(r, i), (r, i + 1), (r, i + 2), (r, i + 3)]
  }

  /** Column c, rows i .. i+3. */
  function Vertical(c: Index, i: int): Window
    requires 0 <= i <= 1
  {
    [(i, c), (i + 1, c), (i + 2, c), (i + 3, c)]
  }

  /** The '\' diagonal starting at (i, j). */
  function Falling(i: int, j: int): Window
    requires 0 <= i <= 1 && 0 <= j <= 1
  {
    [(i, j), (i + 1, j + 1), (i + 2, j + 2), (i + 3, j + 3)]
  }

  /** The '/' diagonal starting at (i, j). */
  function Rising(i: int, j: int): Window
    requires 0 <= i <= 1 && 3 <= j <= 4
  {
    [(i, j), (i + 1, j - 1), (i + 2, j - 2), (i + 3, j - 3)]
  }

  /** The 2x2 box with top-left corner (r, c), listed as [r][c], [r+1][c], [r][c+1], [r+1][c+1]. */
  function Box(r: int, c: int): Window
    requires 0 <= r <= 3 && 0 <= c <= 3
  {
    [(r, c), (r + 1, c), (r, c + 1), (r + 1, c + 1)]
  }

  /** All 44 windows in scan order: horizontal (by row, then start column), vertical (by column,
      then start row), '\', '/', and boxes (by row, then column). */
  function ScanOrder(): seq<Window>
  {
    seq(10, k requires 0 <= k < 10 => Horizontal(k / 2, k % 2))
    + seq(10, k requires 0 <= k < 10 => Vertical(k / 2, k % 2))
    + seq(4, k requires 0 <= k < 4 => Falling(k / 2, k % 2))
    + seq(4, k requires 0 <= k < 4 => Rising(k / 2, 3 + k % 2))
    + seq(16, k requires 0 <= k < 16 => Box(k / 4, k % 4))
  }

  /** The window holds four equal non-empty cells. */
  predicate Complete(b: Board, w: Window)
  {
    At(b, w[0]) != Empty && At(b, w[0]) == At(b, w[1]) && At(b, w[1]) == At(b, w[2]) && At(b, w[2]) == At(b, w[3])
  }

  /** The index of the first complete window of ws, or |ws| when there is none. */
  function FirstComplete(b: Board, ws: seq<Window>): (k: nat)
    ensures k <= |ws|
    ensures forall j :: 0 <= j < k ==> !Complete(b, ws[j])
    ensures k < |ws| ==> Complete(b, ws[k])
  {
    if ws == [] then 0
    else if Complete(b, ws[0]) then 0
    else 1 + FirstComplete(b, ws[1..])
  }

  /** game_value: 1 if the first complete window in scan order holds me's piece, -1 if it holds
      the other player's, 0 if no window is complete. */
  function GameValue(b: Board, me: Piece): (v: int)
    ensures -1 <= v <= 1
  {
    var k := FirstComplete(b, ScanOrder());
    if k == |ScanOrder()| then 0
    else if At(b, ScanOrder()[k][0]) == Occupied(me) then 1
    else -1
  }

  /** game_value is 0 exactly when no window is complete; otherwise its sign says whether the
      first complete window in scan order holds me's piece. */
  lemma GameValueScan(b: Board, me: Piece)
    ensures GameValue(b, me) == 0 <==> forall k :: 0 <= k < |ScanOrder()| ==> !Complete(b, ScanOrder()[k])
    ensures GameValue(b, me) != 0 <==>
      exists k :: 0 <= k < |ScanOrder()| && Complete(b, ScanOrder()[k])
        && (forall j :: 0 <= j < k ==> !Complete(b, ScanOrder()[j]))
        && (GameValue(b, me) == 1 <==> At(b, ScanOrder()[k][0]) == Occupied(me))
  {
    var k := FirstComplete(b, ScanOrder());
    if k < |ScanOrder()| {
      assert Complete(b, ScanOrder()[k]);
    }
  }

  ghost predicate RowFour(b: Board, x: Cell, r: int, c: int)
    requires 0 <= r < 5 && 0 <= c <= 1
  {
    b[r][c] == x && b[r][c + 1] == x && b[r][c + 2] == x && b[r][c + 3] == x
  }

  ghost predicate ColumnFour(b: Board, x: Cell, r: int, c: int)
    requires 0 <= r <= 1 && 0 <= c < 5
  {
    b[r][c] == x && b[r + 1][c] == x && b[r + 2][c] == x && b[r + 3][c] == x
  }

  ghost predicate FallingFour(b: Board, x: Cell, r: int, c: int)
    requires 0 <= r <= 1 && 0 <= c <= 1
  {
    b[r][c] == x && b[r + 1][c + 1] == x && b[r + 2][c + 2] == x && b[r + 3][c + 3] == x
  }

  ghost predicate RisingFour(b: Board, x: Cell, r: int, c: int)
    requires 0 <= r <= 1 && 3 <= c <= 4
  {
    b[r][c] == x && b[r + 1][c - 1] == x && b[r + 2][c - 2] == x && b[r + 3][c - 3] == x
  }

  ghost predicate BoxFour(b: Board, x: Cell, r: int, c: int)
    requires 0 <= r <= 3 && 0 <= c <= 3
  {
    b[r][c] == x && b[r + 1][c] == x && b[r][c + 1] == x && b[r + 1][c + 1] == x
  }

  /** Four of p's pieces in a row, column, diagonal or 2x2 box, stated cell by cell. */
  ghost predicate Wins(b: Board, p: Piece)
  {
    var x := Occupied(p);
    (exists r, c :: 0 <= r < 5 && 0 <= c <= 1 && RowFour(b, x, r, c))
    || (exists r, c :: 0 <= r <= 1 && 0 <= c < 5 && ColumnFour(b, x, r, c))
    || (exists r, c :: 0 <= r <= 1 && 0 <= c <= 1 && FallingFour(b, x, r, c))
    || (exists r, c :: 0 <= r <= 1 && 3 <= c <= 4 && RisingFour(b, x, r, c))
    || (exists r, c :: 0 <= r <= 3 && 0 <= c <= 3 && BoxFour(b, x, r, c))
  }

  /** A window of ScanOrder is complete with p's pieces. */
  ghost predicate CompleteFor(b: Board, k: int, p: Piece)
    requires 0 <= k < |ScanOrder()|
  {
    Complete(b, ScanOrder()[k]) && At(b, ScanOrder()[k][0]) == Occupied(p)
  }

  lemma RowScanned(b: Board, p: Piece, r: int, c: int)
    requires 0 <= r < 5 && 0 <= c <= 1 && RowFour(b, Occupied(p), r, c)
    ensures CompleteFor(b, 2 * r + c, p)
  {
    assert ScanOrder()[2 * r + c] == Horizontal(r, c);
  }

  lemma ColumnScanned(b: Board, p: Piece, r: int, c: int)
    requires 0 <= r <= 1 && 0 <= c < 5 && ColumnFour(b, Occupied(p), r, c)
    ensures CompleteFor(b, 10 + 2 * c + r, p)
  {
    assert ScanOrder()[10 + 2 * c + r] == Vertical(c, r);
  }

  lemma FallingScanned(b: Board, p: Piece, r: int, c: int)
    requires 0 <= r <= 1 && 0 <= c <= 1 && FallingFour(b, Occupied(p), r, c)
    ensures CompleteFor(b, 20 + 2 * r + c, p)
  {
    assert ScanOrder()[20 + 2 * r + c] == Falling(r, c);
  }

  lemma RisingScanned(b: Board, p: Piece, r: int, c: int)
    requires 0 <= r <= 1 && 3 <= c <= 4 && RisingFour(b, Occupied(p), r, c)
    ensures CompleteFor(b, 21 + 2 * r + c, p)
  {
    assert ScanOrder()[21 + 2 * r + c] == Rising(r, c);
  }

  lemma BoxScanned(b: Board, p: Piece, r: int, c: int)
    requires 0 <= r <= 3 && 0 <= c <= 3 && BoxFour(b, Occupied(p), r, c)
    ensures CompleteFor(b, 28 + 4 * r + c, p)
  {
    assert ScanOrder()[28 + 4 * r + c] == Box(r, c);
  }

  /** Every winning shape is a complete window of ScanOrder. */
  lemma WinsScanned(b: Board, p: Piece)
    requires Wins(b, p)
    ensures exists k :: 0 <= k < |ScanOrder()| && CompleteFor(b, k, p)
  {
    var x := Occupied(p);
    if r, c :| 0 <= r < 5 && 0 <= c <= 1 && RowFour(b, x, r, c) {
      RowScanned(b, p, r, c);
    } else if r, c :| 0 <= r <= 1 && 0 <= c < 5 && ColumnFour(b, x, r, c) {
      ColumnScanned(b, p, r, c);
    } else if r, c :| 0 <= r <= 1 && 0 <= c <= 1 && FallingFour(b, x, r, c) {
      FallingScanned(b, p, r, c);
    } else if r, c :| 0 <= r <= 1 && 3 <= c <= 4 && RisingFour(b, x, r, c) {
      RisingScanned(b, p, r, c);
    } else {
      var r, c :| 0 <= r <= 3 && 0 <= c <= 3 && BoxFour(b, x, r, c);
      BoxScanned(b, p, r, c);
    }
  }

  /** Every window of ScanOrder is a winning shape. */
  lemma ScannedWins(b: Board, p: Piece, k: int)
    requires 0 <= k < |ScanOrder()| && CompleteFor(b, k, p)
    ensures Wins(b, p)
  {
    var x := Occupied(p);
    var order := ScanOrder();
    if k < 10 {
      assert order[k] == Horizontal(k / 2, k % 2);
      assert RowFour(b, x, k / 2, k % 2);
    } else if k < 20 {
      assert order[k] == Vertical((k - 10) / 2, (k - 10) % 2);
      assert ColumnFour(b, x, (k - 10) % 2, (k - 10) / 2);
    } else if k < 24 {
      assert order[k] == Falling((k - 20) / 2, (k - 20) % 2);
      assert FallingFour(b, x, (k - 20) / 2, (k - 20) % 2);
    } else if k < 28 {
      assert order[k] == Rising((k - 24) / 2, 3 + (k - 24) % 2);
      assert RisingFour(b, x, (k - 24) / 2, 3 + (k - 24) % 2);
    } else {
      assert order[k] == Box((k - 28) / 4, (k - 28) % 4);
      assert BoxFour(b, x, (k - 28) / 4, (k - 28) % 4);
    }
  }

  /** Every winning shape appears in ScanOrder, and ScanOrder holds nothing else. */
  lemma WinsIffScanned(b: Board, p: Piece)
    ensures Wins(b, p) <==> exists k :: 0 <= k < |ScanOrder()| && CompleteFor(b, k, p)
  {
    if Wins(b, p) {
      WinsScanned(b, p);
    }
    if k :| 0 <= k < |ScanOrder()| && CompleteFor(b, k, p) {
      ScannedWins(b, p, k);
    }
  }

  /** game_value is 0 exactly when neither player has a winning shape; a non-zero value names
      a player who has one, and when only one player has one its sign is fixed. */
  lemma GameValueWins(b: Board, me: Piece)
    ensures GameValue(b, me) == 0 <==> !Wins(b, me) && !Wins(b, Other(me))
    ensures GameValue(b, me) == 1 ==> Wins(b, me)
    ensures GameValue(b, me) == -1 ==> Wins(b, Other(me))
    ensures Wins(b, me) && !Wins(b, Other(me)) ==> GameValue(b, me) == 1
    ensures Wins(b, Other(me)) && !Wins(b, me) ==> GameValue(b, me) == -1
  {
    WinsIffScanned(b, me);
    WinsIffScanned(b, Other(me));
    var k := FirstComplete(b, ScanOrder());
    if k < |ScanOrder()| {
      var c := At(b, ScanOrder()[k][0]);
      assert c == Occupied(me) || c == Occupied(Other(me));
      if c == Occupied(me) {
        assert CompleteFor(b, k, me);
      } else {
        assert CompleteFor(b, k, Other(me));
      }
    } else {
      assert forall j :: 0 <= j < |ScanOrder()| ==> !CompleteFor(b, j, me) && !CompleteFor(b, j, Other(me));
    }
  }

  /** The board seen in a mirror: column c becomes column 4 - c. */
  function Mirror(b: Board): (m: Board)
    ensures forall r, c :: 0 <= r < 5 && 0 <= c < 5 ==> m[r][c] == b[r][4 - c]
  {
    seq(5, r requires 0 <= r < 5 => seq(5, c requires 0 <= c < 5 => b[r][4 - c]))
  }

  /** The board upside down: row r becomes row 4 - r. */
  function Flip(b: Board): (f: Board)
    ensures forall r, c :: 0 <= r < 5 && 0 <= c < 5 ==> f[r][c] == b[4 - r][c]
  {
    seq(5, r requires 0 <= r < 5 => b[4 - r])
  }

  lemma BoardsEqual(b: Board, b': Board)
    requires forall r, c :: 0 <= r < 5 && 0 <= c < 5 ==> b[r][c] == b'[r][c]
    ensures b == b'
  {
    forall r | 0 <= r < 5
      ensures b[r] == b'[r]
    {
      assert forall c :: 0 <= c < 5 ==> b[r][c] == b'[r][c];
    }
  }

  lemma MirrorKeepsWins(b: Board, p: Piece)
    requires Wins(b, p)
    ensures Wins(Mirror(b), p)
  {
    var x, m := Occupied(p), Mirror(b);
    if r, c :| 0 <= r < 5 && 0 <= c <= 1 && RowFour(b, x, r, c) {
      assert RowFour(m, x, r, 1 - c);
    } else if r, c :| 0 <= r <= 1 && 0 <= c < 5 && ColumnFour(b, x, r, c) {
      assert ColumnFour(m, x, r, 4 - c);
    } else if r, c :| 0 <= r <= 1 && 0 <= c <= 1 && FallingFour(b, x, r, c) {
      assert RisingFour(m, x, r, 4 - c);
    } else if r, c :| 0 <= r <= 1 && 3 <= c <= 4 && RisingFour(b, x, r, c) {
      assert FallingFour(m, x, r, 4 - c);
    } else {
      var r, c :| 0 <= r <= 3 && 0 <= c <= 3 && BoxFour(b, x, r, c);
      assert BoxFour(m, x, r, 3 - c);
    }
  }

  lemma FlipKeepsWins(b: Board, p: Piece)
    requires Wins(b, p)
    ensures Wins(Flip(b), p)
  {
    var x, f := Occupied(p), Flip(b);
    if r, c :| 0 <= r < 5 && 0 <= c <= 1 && RowFour(b, x, r, c) {
      assert RowFour(f, x, 4 - r, c);
    } else if r, c :| 0 <= r <= 1 && 0 <= c < 5 && ColumnFour(b, x, r, c) {
      assert ColumnFour(f, x, 1 - r, c);
    } else if r, c :| 0 <= r <= 1 && 0 <= c <= 1 && FallingFour(b, x, r, c) {
      assert RisingFour(f, x, 1 - r, c + 3);
    } else if r, c :| 0 <= r <= 1 && 3 <= c <= 4 && RisingFour(b, x, r, c) {
      assert FallingFour(f, x, 1 - r, c - 3);
    } else {
      var r, c :| 0 <= r <= 3 && 0 <= c <= 3 && BoxFour(b, x, r, c);
      assert BoxFour(f, x, 3 - r, c);
    }
  }

  /** Winning shapes are symmetric under left-right and top-bottom reflection, so whenever at most
      one player has four in a pattern, game_value does not change under either reflection. */
  lemma GameValueReflection(b: Board, me: Piece)
    requires !(Wins(b, me) && Wins(b, Other(me)))
    ensures GameValue(Mirror(b), me) == GameValue(b, me)
    ensures GameValue(Flip(b), me) == GameValue(b, me)
  {
    BoardsEqual(Mirror(Mirror(b)), b);
    BoardsEqual(Flip(Flip(b)), b);
    forall p: Piece
      ensures Wins(b, p) <==> Wins(Mirror(b), p)
      ensures Wins(b, p) <==> Wins(Flip(b), p)
    {
      if Wins(b, p) { MirrorKeepsWins(b, p); FlipKeepsWins(b, p); }
      if Wins(Mirror(b), p) { MirrorKeepsWins(Mirror(b), p); }
      if Wins(Flip(b), p) { FlipKeepsWins(Flip(b), p); }
    }
    GameValueWins(b, me);
    GameValueWins(Mirror(b), me);
    GameValueWins(Flip(b), me);
  }
}
