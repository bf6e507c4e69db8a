/**
 * Properties of the SAN resolver: what its board searches can report, which tokens it
 * rejects, and what it gives for tokens on the starting position. All of them are about
 * `Chess.Resolve`, which `Position.Parse` is proved to compute.
 */
module ChessFacts {
  import opened Wrappers
  import opened Text
  import opened Chess

  // ---------------------------------------------------------------------------
  // Scanning a list of squares

  /** A scan is exhausted exactly when every square in the list can be read and misses. */
  lemma {:induction false} ScanExhausted(cells: Cells, squares: seq<(int, int)>, want: Piece)
    ensures Scan(cells, squares, want) == Exhausted <==>
      forall i :: 0 <= i < |squares| ==> Misses(cells, squares[i], want)
  {
    if squares != [] {
      var rest := squares[1..];
      ScanExhausted(cells, rest, want);
      assert forall i :: 0 < i < |squares| ==> squares[i] == rest[i - 1];
      if forall i :: 0 <= i < |rest| ==> Misses(cells, rest[i], want) {
        assert forall i :: 0 < i < |squares| ==> Misses(cells, squares[i], want) by {
          forall i | 0 < i < |squares| ensures Misses(cells, squares[i], want) {
            assert Misses(cells, rest[i - 1], want);
          }
        }
      }
    }
  }

  /** A hit is a square of the list that can be read and holds the wanted piece, and every square before it misses. */
  lemma {:induction false} ScanFound(cells: Cells, squares: seq<(int, int)>, want: Piece, c: int, r: int)
    requires Scan(cells, squares, want) == Found(c, r)
    ensures (c, r) in squares && InRange(c, r) && cells[Index(c, r)] == want
    ensures exists i :: 0 <= i < |squares| && squares[i] == (c, r) && forall j :: 0 <= j < i ==> Misses(cells, squares[j], want)
  {
    var (x, y) := squares[0];
    if cells[Index(x, y)] != want {
      var rest := squares[1..];
      ScanFound(cells, rest, want, c, r);
      var i :| 0 <= i < |rest| && rest[i] == (c, r) && forall j :: 0 <= j < i ==> Misses(cells, rest[j], want);
      assert squares[i + 1] == (c, r);
      assert forall j :: 0 < j < i + 1 ==> squares[j] == rest[j - 1];
    } else {
      assert squares[0] == (c, r);
    }
  }

  /** The square can be read and holds the wanted piece. */
  predicate Holds(cells: Cells, sq: (int, int), want: Piece)
  {
    InRange(sq.0, sq.1) && cells[Index(sq.0, sq.1)] == want
  }

  /** The index of the first square of the list that holds the wanted piece, or the list's length when none does. */
  function FirstHolding(cells: Cells, squares: seq<(int, int)>, want: Piece): (k: nat)
    ensures k <= |squares|
    ensures k < |squares| ==> Holds(cells, squares[k], want)
    ensures forall j :: 0 <= j < k ==> !Holds(cells, squares[j], want)
  {
    if squares == [] then 0
    else if Holds(cells, squares[0], want) then 0
    else 1 + FirstHolding(cells, squares[1..], want)
  }

  /** When every square of the list can be read, the scan finds the first square holding the piece, or nothing. */
  lemma {:induction false} ScanFirst(cells: Cells, squares: seq<(int, int)>, want: Piece)
    requires forall i :: 0 <= i < |squares| ==> InRange(squares[i].0, squares[i].1)
    ensures var k := FirstHolding(cells, squares, want);
      Scan(cells, squares, want) == if k < |squares| then Found(squares[k].0, squares[k].1) else Exhausted
  {
    if squares != [] && !Holds(cells, squares[0], want) {
      assert forall i :: 0 <= i < |squares[1..]| ==> squares[1..][i] == squares[i + 1];
      ScanFirst(cells, squares[1..], want);
    }
  }

  // ---------------------------------------------------------------------------
  // The King search

  /** The neighbour at offset (dx, dy) can be read and does not hold the wanted piece. */
  predicate NeighbourMisses(cells: Cells, col: int, row: int, want: Piece, dx: int, dy: int)
  {
    InRange(col + dx, row + dy) && cells[Index(col + dx, row + dy)] != want
  }

  /** A hit on row offset dr is a readable neighbour on that row, right of dc - 1, holding the wanted piece. */
  lemma {:induction false} KingRowFound(cells: Cells, col: int, row: int, want: Piece, dr: int, dc: int, c: int, r: int)
    requires KingRowScan(cells, col, row, want, dr, dc) == Found(c, r)
    ensures r == row + dr && dc <= c - col <= 1 && (c, r) != (col, row)
    ensures InRange(c, r) && cells[Index(c, r)] == want
    decreases 2 - dc
  {
    if (dr == 0 && dc == 0) || (InRange(col + dc, row + dr) && cells[Index(col + dc, row + dr)] != want) {
      KingRowFound(cells, col, row, want, dr, dc + 1, c, r);
    }
  }

  /** A row offset's search is exhausted exactly when its neighbours from column offset dc on all miss. */
  lemma {:induction false} KingRowExhausted(cells: Cells, col: int, row: int, want: Piece, dr: int, dc: int)
    ensures KingRowScan(cells, col, row, want, dr, dc) == Exhausted <==>
      forall dx :: dc <= dx <= 1 && !(dr == 0 && dx == 0) ==> NeighbourMisses(cells, col, row, want, dx, dr)
    decreases 2 - dc
  {
    if dc <= 1 {
      KingRowExhausted(cells, col, row, want, dr, dc + 1);
      if dr == 0 && dc == 0 {
        assert KingRowScan(cells, col, row, want, dr, dc) == KingRowScan(cells, col, row, want, dr, dc + 1);
      } else {
        assert KingRowScan(cells, col, row, want, dr, dc) == Exhausted <==>
          NeighbourMisses(cells, col, row, want, dc, dr) && KingRowScan(cells, col, row, want, dr, dc + 1) == Exhausted;
      }
    }
  }

  /** A hit of the King search from row offset dr on is a readable neighbour holding the wanted piece. */
  lemma {:induction false} KingFound(cells: Cells, col: int, row: int, want: Piece, dr: int, c: int, r: int)
    requires KingScan(cells, col, row, want, dr) == Found(c, r)
    ensures dr <= r - row <= 1 && -1 <= c - col <= 1 && (c, r) != (col, row)
    ensures InRange(c, r) && cells[Index(c, r)] == want
    decreases 2 - dr
  {
    if KingRowScan(cells, col, row, want, dr, -1) == Exhausted {
      KingFound(cells, col, row, want, dr + 1, c, r);
    } else {
      KingRowFound(cells, col, row, want, dr, -1, c, r);
    }
  }

  /** The King search from row offset dr on is exhausted exactly when all neighbours on those rows miss. */
  lemma {:induction false} KingExhausted(cells: Cells, col: int, row: int, want: Piece, dr: int)
    ensures KingScan(cells, col, row, want, dr) == Exhausted <==>
      forall dx, dy :: -1 <= dx <= 1 && dr <= dy <= 1 && !(dx == 0 && dy == 0) ==> NeighbourMisses(cells, col, row, want, dx, dy)
    decreases 2 - dr
  {
    if dr <= 1 {
      KingRowExhausted(cells, col, row, want, dr, -1);
      KingExhausted(cells, col, row, want, dr + 1);
    }
  }

  /**
   * The King branch: a resolved source is a neighbour of the destination holding the
   * mover's King, and the search fails as impossible exactly when all eight neighbours
   * can be read and none holds it.
   */
  lemma KingResultMeaning(b: Board, m: Move, color: Color)
    ensures KingResult(b, m, color) != Err(ErrInvalid)
    ensures KingResult(b, m, color).Ok? ==>
      var s := KingResult(b, m, color).move;
      s == m.(fromCol := s.fromCol, fromRow := s.fromRow) &&
      Abs(s.fromCol - m.toCol) <= 1 && Abs(s.fromRow - m.toRow) <= 1 && (s.fromCol, s.fromRow) != (m.toCol, m.toRow) &&
      InRange(s.fromCol, s.fromRow) && b.cells[Index(s.fromCol, s.fromRow)] == Piece(color, King)
    ensures KingResult(b, m, color) == Err(ErrImpossible) <==>
      forall dx, dy :: -1 <= dx <= 1 && -1 <= dy <= 1 && !(dx == 0 && dy == 0) ==>
        NeighbourMisses(b.cells, m.toCol, m.toRow, Piece(color, King), dx, dy)
  {
    var want := Piece(color, King);
    KingExhausted(b.cells, m.toCol, m.toRow, want, -1);
    var probe := KingScan(b.cells, m.toCol, m.toRow, want, -1);
    if probe.Found? {
      KingFound(b.cells, m.toCol, m.toRow, want, -1, probe.col, probe.row);
    }
  }

  /** The neighbours the King search visits on row offset dr, from column offset dc on, in its order. */
  function KingRowSquares(col: int, row: int, dr: int, dc: int): seq<(int, int)>
    decreases 2 - dc
  {
    if dc > 1 then []
    else if dr == 0 && dc == 0 then KingRowSquares(col, row, dr, dc + 1)
    else [(col + dc, row + dr)] + KingRowSquares(col, row, dr, dc + 1)
  }

  /** The neighbours the King search visits from row offset dr on: row by row, each row left to right. */
  function KingSquares(col: int, row: int, dr: int): seq<(int, int)>
    decreases 2 - dr
  {
    if dr > 1 then [] else KingRowSquares(col, row, dr, -1) + KingSquares(col, row, dr + 1)
  }

  /** The eight neighbours of (col, row) in the King search's order. */
  function KingNeighbours(col: int, row: int): (sq: seq<(int, int)>)
    ensures |sq| == 8
    ensures forall i :: 0 <= i < 8 ==> Abs(sq[i].0 - col) <= 1 && Abs(sq[i].1 - row) <= 1 && sq[i] != (col, row)
  {
    [(col - 1, row - 1), (col, row - 1), (col + 1, row - 1),
     (col - 1, row), (col + 1, row),
     (col - 1, row + 1), (col, row + 1), (col + 1, row + 1)]
  }

  /** One row offset of the King search is a scan of that row's neighbours. */
  lemma {:induction false} KingRowScanIsScan(cells: Cells, col: int, row: int, want: Piece, dr: int, dc: int)
    ensures KingRowScan(cells, col, row, want, dr, dc) == Scan(cells, KingRowSquares(col, row, dr, dc), want)
    decreases 2 - dc
  {
    if dc <= 1 {
      KingRowScanIsScan(cells, col, row, want, dr, dc + 1);
      if !(dr == 0 && dc == 0) {
        var rest := KingRowSquares(col, row, dr, dc + 1);
        assert ([(col + dc, row + dr)] + rest)[1..] == rest;
      }
    }
  }

  /** The King search from row offset dr on is a scan of those rows' neighbours, one row after another. */
  lemma {:induction false} KingScanIsScan(cells: Cells, col: int, row: int, want: Piece, dr: int)
    ensures KingScan(cells, col, row, want, dr) == Scan(cells, KingSquares(col, row, dr), want)
    decreases 2 - dr
  {
    if dr <= 1 {
      KingRowScanIsScan(cells, col, row, want, dr, -1);
      KingScanIsScan(cells, col, row, want, dr + 1);
      ScanAppend(cells, KingRowSquares(col, row, dr, -1), KingSquares(col, row, dr + 1), want);
    }
  }

  /** The whole King search visits the eight neighbours in `KingNeighbours` order. */
  lemma KingSearchOrder(cells: Cells, col: int, row: int, want: Piece)
    ensures KingScan(cells, col, row, want, -1) == Scan(cells, KingNeighbours(col, row), want)
  {
    KingScanIsScan(cells, col, row, want, -1);
    assert KingRowSquares(col, row, -1, 2) == [];
    assert KingRowSquares(col, row, -1, -1) == [(col - 1, row - 1), (col, row - 1), (col + 1, row - 1)];
    assert KingRowSquares(col, row, 0, 1) == [(col + 1, row)];
    assert KingRowSquares(col, row, 0, -1) == [(col - 1, row), (col + 1, row)];
    assert KingRowSquares(col, row, 1, -1) == [(col - 1, row + 1), (col, row + 1), (col + 1, row + 1)];
    assert KingSquares(col, row, 2) == [];
    assert KingSquares(col, row, -1) == KingNeighbours(col, row);
  }

  /**
   * When all eight neighbours can be read, the King branch never reports an index error: it
   * fills in the first neighbour, row by row and left to right, that holds the mover's King,
   * and fails as impossible when none does.
   */
  lemma KingResultFirst(b: Board, m: Move, color: Color)
    requires forall i :: 0 <= i < 8 ==> InRange(KingNeighbours(m.toCol, m.toRow)[i].0, KingNeighbours(m.toCol, m.toRow)[i].1)
    ensures KingResult(b, m, color) != Err(ErrIndexOutOfRange)
    ensures var sq := KingNeighbours(m.toCol, m.toRow);
      var k := FirstHolding(b.cells, sq, Piece(color, King));
      KingResult(b, m, color) == if k < 8 then Ok(m.(fromCol := sq[k].0, fromRow := sq[k].1)) else Err(ErrImpossible)
  {
    KingSearchOrder(b.cells, m.toCol, m.toRow, Piece(color, King));
    ScanFirst(b.cells, KingNeighbours(m.toCol, m.toRow), Piece(color, King));
  }

  // ---------------------------------------------------------------------------
  // The Queen search

  /** The distance walked from `start` to `at` along direction `d` (a step of 1 or -1). */
  function Along(d: int, start: int, at: int): int
  {
    if d > 0 then at - start else start - at
  }

  /** Every square of a walk is on the board, the same number of steps along both axes. */
  lemma {:induction false} WalkAligned(col: int, row: int, dc: int, dr: int, c: int, r: int)
    requires dc == 1 || dc == -1
    requires dr == 1 || dr == -1
    requires (c, r) in Walk(col, row, dc, dr)
    ensures OnBoard(c, r) && Along(dc, col, c) == Along(dr, row, r) >= 0
    decreases if OnBoard(col, row) then (if dc > 0 then 8 - col else col + 1) else 0
  {
    if (c, r) != (col, row) {
      WalkStep(col, row, dc, dr);
      WalkAligned(col + dc, row + dr, dc, dr, c, r);
    }
  }

  /** Every square of a diagonal ray is on the board, on a diagonal through (col, row) but not (col, row) itself. */
  lemma RayAligned(col: int, row: int, k: nat, c: int, r: int)
    requires k < 4 && (c, r) in Ray(col, row, k)
    ensures OnBoard(c, r) && Abs(c - col) == Abs(r - row) && c != col
  {
    var dr := if k < 2 then -1 else 1;
    var dc := if k == 0 || k == 2 then -1 else 1;
    WalkAligned(col + dc, row + dr, dc, dr, c, r);
  }

  lemma {:induction false} DiagonalsAligned(col: int, row: int, k: nat, c: int, r: int)
    requires (c, r) in Diagonals(col, row, k)
    ensures OnBoard(c, r) && Abs(c - col) == Abs(r - row) && c != col
    decreases 4 - k
  {
    if (c, r) in Ray(col, row, k) {
      RayAligned(col, row, k, c, r);
    } else {
      DiagonalsAligned(col, row, k + 1, c, r);
    }
  }

  /** The Queen search only visits the destination's rank, its file and its diagonals. */
  lemma QueenSquaresAligned(col: int, row: int, c: int, r: int)
    requires (c, r) in QueenSquares(col, row)
    ensures r == row || c == col || (OnBoard(c, r) && Abs(c - col) == Abs(r - row))
  {
    var horizontal, vertical := seq(8, c => (c, row)), seq(8, r => (col, r));
    assert QueenSquares(col, row) == horizontal + vertical + Diagonals(col, row, 0);
    if (c, r) !in horizontal && (c, r) !in vertical {
      DiagonalsAligned(col, row, 0, c, r);
    }
  }

  /** A walk from an on-board square reaches every on-board square the same number of steps away along both axes. */
  lemma {:induction false} WalkCovers(col: int, row: int, dc: int, dr: int, c: int, r: int)
    requires dc == 1 || dc == -1
    requires dr == 1 || dr == -1
    requires OnBoard(col, row) && OnBoard(c, r)
    requires Along(dc, col, c) == Along(dr, row, r) >= 0
    ensures (c, r) in Walk(col, row, dc, dr)
    decreases Along(dc, col, c)
  {
    WalkStep(col, row, dc, dr);
    if (c, r) != (col, row) {
      WalkCovers(col + dc, row + dr, dc, dr, c, r);
    }
  }

  /** Every on-board square on a diagonal through an on-board (col, row), other than (col, row), lies on the ray towards it. */
  lemma RayCovers(col: int, row: int, c: int, r: int)
    requires OnBoard(col, row) && OnBoard(c, r) && c != col && Abs(c - col) == Abs(r - row)
    ensures (c, r) in Ray(col, row, (if r < row then 0 else 2) + (if c < col then 0 else 1))
  {
    var dr := if r < row then -1 else 1;
    var dc := if c < col then -1 else 1;
    WalkCovers(col + dc, row + dr, dc, dr, c, r);
  }

  lemma {:induction false} RayInDiagonals(col: int, row: int, j: nat, k: nat, sq: (int, int))
    requires j <= k < 4 && sq in Ray(col, row, k)
    ensures sq in Diagonals(col, row, j)
    decreases k - j
  {
    if j < k {
      RayInDiagonals(col, row, j + 1, k, sq);
    }
  }

  /** With the destination on the board, the Queen search visits every on-board square of its rank, its file and its diagonals. */
  lemma QueenSquaresCover(col: int, row: int, c: int, r: int)
    requires OnBoard(col, row) && OnBoard(c, r)
    requires r == row || c == col || Abs(c - col) == Abs(r - row)
    ensures (c, r) in QueenSquares(col, row)
  {
    var horizontal, vertical := seq(8, c => (c, row)), seq(8, r => (col, r));
    assert QueenSquares(col, row) == horizontal + vertical + Diagonals(col, row, 0);
    if r == row {
      assert horizontal[c] == (c, r);
    } else if c == col {
      assert vertical[r] == (c, r);
    } else {
      RayCovers(col, row, c, r);
      RayInDiagonals(col, row, 0, (if r < row then 0 else 2) + (if c < col then 0 else 1), (c, r));
    }
  }

  /** With the destination on the board, every square the Queen search visits is on the board. */
  lemma QueenSquaresOnBoard(col: int, row: int)
    requires OnBoard(col, row)
    ensures forall i :: 0 <= i < |QueenSquares(col, row)| ==> OnBoard(QueenSquares(col, row)[i].0, QueenSquares(col, row)[i].1)
  {
    var squares := QueenSquares(col, row);
    var horizontal, vertical := seq(8, c => (c, row)), seq(8, r => (col, r));
    assert squares == horizontal + vertical + Diagonals(col, row, 0);
    forall i | 0 <= i < |squares| ensures OnBoard(squares[i].0, squares[i].1) {
      if 16 <= i {
        assert squares[i] in Diagonals(col, row, 0) by {
          assert squares[i] == Diagonals(col, row, 0)[i - 16];
        }
        DiagonalsAligned(col, row, 0, squares[i].0, squares[i].1);
      }
    }
  }

  /**
   * The Queen branch never fails as invalid or impossible; a source it fills in holds the
   * mover's Queen on the destination's rank, file or a diagonal through it (no check that
   * the way is clear), and the destination is left as it was.
   */
  lemma QueenResultMeaning(b: Board, m: Move, color: Color)
    ensures QueenResult(b, m, color) != Err(ErrInvalid) && QueenResult(b, m, color) != Err(ErrImpossible)
    ensures QueenResult(b, m, color).Ok? ==>
      var s := QueenResult(b, m, color).move;
      s == m.(fromCol := s.fromCol, fromRow := s.fromRow) &&
      (s == m ||
       (InRange(s.fromCol, s.fromRow) && b.cells[Index(s.fromCol, s.fromRow)] == Piece(color, Queen) &&
        (s.fromRow == m.toRow || s.fromCol == m.toCol || Abs(s.fromCol - m.toCol) == Abs(s.fromRow - m.toRow))))
  {
    var want := Piece(color, Queen);
    var probe := Scan(b.cells, QueenSquares(m.toCol, m.toRow), want);
    if probe.Found? {
      ScanFound(b.cells, QueenSquares(m.toCol, m.toRow), want, probe.col, probe.row);
      QueenSquaresAligned(m.toCol, m.toRow, probe.col, probe.row);
    }
  }

  /**
   * With the destination on the board the Queen branch reads no cell outside the array:
   * it fills in the first square, in its visiting order, that holds the mover's Queen, and
   * leaves the move as it is when no visited square does.
   */
  lemma QueenResultFirst(b: Board, m: Move, color: Color)
    requires OnBoard(m.toCol, m.toRow)
    ensures var squares := QueenSquares(m.toCol, m.toRow);
      var k := FirstHolding(b.cells, squares, Piece(color, Queen));
      QueenResult(b, m, color) == if k < |squares| then Ok(m.(fromCol := squares[k].0, fromRow := squares[k].1)) else Ok(m)
  {
    var squares := QueenSquares(m.toCol, m.toRow);
    QueenSquaresOnBoard(m.toCol, m.toRow);
    ScanFirst(b.cells, squares, Piece(color, Queen));
  }

  /** (c, r) is on the board and on the rank, the file or a diagonal of (col, row). */
  predicate QueenLine(col: int, row: int, c: int, r: int)
  {
    OnBoard(c, r) && (r == row || c == col || Abs(c - col) == Abs(r - row))
  }

  /**
   * With the destination on the board, the search fills in a source exactly when a Queen of
   * the mover stands on the destination's rank, file or a diagonal through it, and the
   * source it fills in is such a square.
   */
  lemma QueenFoundWhenAligned(b: Board, m: Move, color: Color)
    requires OnBoard(m.toCol, m.toRow)
    ensures var squares := QueenSquares(m.toCol, m.toRow);
      FirstHolding(b.cells, squares, Piece(color, Queen)) < |squares| <==>
        exists c, r :: QueenLine(m.toCol, m.toRow, c, r) && b.cells[Index(c, r)] == Piece(color, Queen)
    ensures var squares := QueenSquares(m.toCol, m.toRow);
      var k := FirstHolding(b.cells, squares, Piece(color, Queen));
      k < |squares| ==> QueenLine(m.toCol, m.toRow, squares[k].0, squares[k].1) && Holds(b.cells, squares[k], Piece(color, Queen))
  {
    var squares := QueenSquares(m.toCol, m.toRow);
    var k := FirstHolding(b.cells, squares, Piece(color, Queen));
    if k < |squares| {
      QueenFirstAligned(m.toCol, m.toRow, squares, k);
    }
    if exists c, r :: QueenLine(m.toCol, m.toRow, c, r) && b.cells[Index(c, r)] == Piece(color, Queen) {
      var c, r :| QueenLine(m.toCol, m.toRow, c, r) && b.cells[Index(c, r)] == Piece(color, Queen);
      QueenAlignedVisited(b.cells, m.toCol, m.toRow, Piece(color, Queen), c, r);
    }
  }

  lemma QueenFirstAligned(col: int, row: int, squares: seq<(int, int)>, k: nat)
    requires OnBoard(col, row) && squares == QueenSquares(col, row) && k < |squares|
    ensures QueenLine(col, row, squares[k].0, squares[k].1)
  {
    QueenSquaresOnBoard(col, row);
    assert squares[k] in squares;
    QueenSquaresAligned(col, row, squares[k].0, squares[k].1);
  }

  lemma QueenAlignedVisited(cells: Cells, col: int, row: int, want: Piece, c: int, r: int)
    requires OnBoard(col, row) && QueenLine(col, row, c, r) && cells[Index(c, r)] == want
    ensures FirstHolding(cells, QueenSquares(col, row), want) < |QueenSquares(col, row)|
  {
    var squares := QueenSquares(col, row);
    QueenSquaresCover(col, row, c, r);
    var i :| 0 <= i < |squares| && squares[i] == (c, r);
    assert Holds(cells, squares[i], want);
  }

  /** With the destination on the board and no Queen of the mover anywhere, the Queen search leaves the move as it is. */
  lemma QueenAbsent(b: Board, m: Move, color: Color)
    requires OnBoard(m.toCol, m.toRow)
    requires forall i :: 0 <= i < 64 ==> b.cells[i] != Piece(color, Queen)
    ensures QueenResult(b, m, color) == Ok(m)
  {
    var squares := QueenSquares(m.toCol, m.toRow);
    QueenResultFirst(b, m, color);
    assert forall i :: 0 <= i < |squares| ==> !Holds(b.cells, squares[i], Piece(color, Queen));
  }

  // ---------------------------------------------------------------------------
  // The resolver

  /**
   * A token is rejected as invalid exactly when it is empty, or it is not a castling
   * token and its leading run of move runes is shorter than two characters.
   */
  lemma ResolveInvalid(b: Board, a: string)
    ensures Resolve(b, a) == Err(ErrInvalid) <==> |a| == 0 || (!IsCastling(a) && Span(a, IsMoveRune) < 2)
  {
    if |a| > 0 && !IsCastling(a) && Span(a, IsMoveRune) >= 2 {
      var m := HintedMove(a, Span(a, IsMoveRune));
      KingResultMeaning(b, m, Side(b));
      QueenResultMeaning(b, m, Side(b));
    }
  }

  /** Castling is recognised only from the exact tokens, and moves the King from the e file along the mover's home rank. */
  lemma ResolveCastling(b: Board)
    ensures var row := if b.whiteMove then 0 else 7;
      Resolve(b, "O-O") == Ok(Move(4, 6, row, row, Empty)) && Resolve(b, "O-O-O") == Ok(Move(4, 2, row, row, Empty))
  {
  }

  /**
   * A resolved move never has a promotion piece; unless it is castling, its destination is
   * the last two characters of the leading run, read with byte arithmetic (so it lies in
   * 0..255 and "e9" gives rank index 8), and the board searches leave it unchanged.
   */
  lemma ResolvedMove(b: Board, a: string)
    requires Resolve(b, a).Ok?
    ensures Resolve(b, a).move.promote == Empty
    ensures !IsCastling(a) ==>
      var m := Resolve(b, a).move;
      var end := Span(a, IsMoveRune);
      2 <= end && m.toCol == ByteSub(a[end - 2], 'a') && m.toRow == ByteSub(a[end - 1], '1') &&
      0 <= m.toCol < 256 && 0 <= m.toRow < 256
  {
    if !IsCastling(a) {
      var end := Span(a, IsMoveRune);
      var m := HintedMove(a, end);
      var source := SourceHint(a[..end - 2]);
      assert Resolve(b, a) == Disambiguate(b, m, source);
      DisambiguateKeeps(b, m, source);
      HintedDestination(a, end);
    }
  }

  /** The hinted move carries the destination read from the last two runes and no promotion. */
  lemma HintedDestination(a: string, end: nat)
    requires 2 <= end <= |a|
    ensures var m := HintedMove(a, end);
      m.promote == Empty && m.toCol == ByteSub(a[end - 2], 'a') && m.toRow == ByteSub(a[end - 1], '1') &&
      0 <= m.toCol < 256 && 0 <= m.toRow < 256
  {
  }

  /** The board searches only ever fill in the source square. */
  lemma DisambiguateKeeps(b: Board, m: Move, source: PieceType)
    ensures Disambiguate(b, m, source).Ok? ==>
      var s := Disambiguate(b, m, source).move;
      s == m.(fromCol := s.fromCol, fromRow := s.fromRow)
  {
    KingResultMeaning(b, m, Side(b));
    QueenResultMeaning(b, m, Side(b));
  }

  /** What follows the leading run of move runes (check and mate marks, "=Q") does not change the result. */
  lemma SuffixIgnored(b: Board, a: string, t: string)
    requires a != [] && !IsCastling(a) && !IsCastling(a + t)
    requires t == [] || !IsMoveRune(t[0])
    ensures Resolve(b, a + t) == Resolve(b, a)
  {
    var s := a + t;
    var end := Span(a, IsMoveRune);
    forall k | 0 <= k < end ensures IsMoveRune(s[k]) {
      assert s[k] == a[k];
    }
    if end < |a| {
      assert s[end] == a[end];
    } else if t != [] {
      assert s[end] == t[0];
    }
    SpanUnique(s, IsMoveRune, end);
    if end >= 2 {
      assert s[..end - 2] == a[..end - 2];
      assert s[end - 2] == a[end - 2] && s[end - 1] == a[end - 1];
    }
  }

  /** When the hints before the destination give both the source file and rank, the board is not consulted. */
  lemma FullHintsSkipBoard(b: Board, a: string)
    requires a != [] && !IsCastling(a) && Span(a, IsMoveRune) >= 2
    requires FileHint(a[..Span(a, IsMoveRune) - 2]) != Unset && RankHint(a[..Span(a, IsMoveRune) - 2]) != Unset
    ensures Resolve(b, a) == Ok(HintedMove(a, Span(a, IsMoveRune)))
  {
  }

  /** A three-character piece move such as "Nf3": the piece letter names the source, the rest is the destination. */
  lemma ResolvePieceMove(b: Board, a: string)
    requires |a| == 3 && IsPieceChar(a[0]) && IsFileChar(a[1]) && IsRankChar(a[2])
    ensures Resolve(b, a) == Disambiguate(b, HintedMove(a, 3), SourceHint(a[..1]))
    ensures HintedMove(a, 3) == Move(Unset, a[1] as int - 'a' as int, Unset, a[2] as int - '1' as int, Empty)
    ensures SourceHint(a[..1]) == PieceOfLetter(a[0]).value
  {
    assert !IsCastling(a) by {
      assert a[0] != 'O';
    }
    assert Span(a, IsMoveRune) == 3 by {
      SpanUnique(a, IsMoveRune, 3);
    }
    PieceMoveHints(a);
  }

  lemma PieceMoveHints(a: string)
    requires |a| == 3 && IsPieceChar(a[0]) && IsFileChar(a[1]) && IsRankChar(a[2])
    ensures HintedMove(a, 3) == Move(Unset, a[1] as int - 'a' as int, Unset, a[2] as int - '1' as int, Empty)
    ensures SourceHint(a[..1]) == PieceOfLetter(a[0]).value
  {
    assert a[..1] == [] + [a[0]];
    HintsSnoc([], a[0]);
  }

  // ---------------------------------------------------------------------------
  // Tokens on the starting position

  const Start := Board(true, StartCells)

  /** A King move: the White King on e1 is the first neighbour of f2 the search visits. */
  lemma StartKingMove()
    ensures Resolve(Start, "Kf2") == Ok(Move(4, 5, 0, 1, Empty))
  {
    var m := Move(Unset, 5, Unset, 1, Empty);
    ResolvePieceMove(Start, "Kf2");
    assert KingResult(Start, m, White) == Ok(Move(4, 5, 0, 1, Empty)) by {
      assert StartCells[Index(4, 0)] == Piece(White, King);
    }
  }

  /** A Queen move: rank 3 is empty, so the search takes the White Queen on d1 up the file, through the pawn on d2. */
  lemma StartQueenMove()
    ensures Resolve(Start, "Qd3") == Ok(Move(3, 3, 0, 2, Empty))
  {
    ResolvePieceMove(Start, "Qd3");
    StartQueenSearch();
  }

  /** The third rank of the starting position holds no piece. */
  lemma StartThirdRankEmpty(horizontal: seq<(int, int)>, want: Piece)
    requires horizontal == seq(8, c => (c, 2)) && want != NoPiece
    ensures Scan(StartCells, horizontal, want) == Exhausted
  {
    forall i | 0 <= i < 8 ensures Misses(StartCells, horizontal[i], want) {
      assert StartCells[Index(i, 2)] == StartCell(i, 2);
    }
    ScanExhausted(StartCells, horizontal, want);
  }

  lemma StartQueenSearch()
    ensures QueenResult(Start, Move(Unset, 3, Unset, 2, Empty), White) == Ok(Move(3, 3, 0, 2, Empty))
  {
    var want := Piece(White, Queen);
    var horizontal, rest := seq(8, c => (c, 2)), seq(8, r => (3, r)) + Diagonals(3, 2, 0);
    assert QueenSquares(3, 2) == horizontal + rest;
    StartThirdRankEmpty(horizontal, want);
    assert Scan(StartCells, rest, want) == Found(3, 0) by {
      assert rest[0] == (3, 0) && StartCells[Index(3, 0)] == want;
    }
    ScanAppend(StartCells, horizontal, rest, want);
  }

  /** Trailing "=Q#" is ignored, the file hint gives the source file, and a pawn's source rank stays unset. */
  lemma StartPawnCapture()
    ensures Resolve(Start, "cxd8=Q#") == Ok(Move(2, 3, Unset, 7, Empty))
  {
    var a := "cxd8=Q#";
    SpanUnique(a, IsMoveRune, 4);
    PawnCaptureHints(a);
  }

  lemma PawnCaptureHints(a: string)
    requires a == "cxd8=Q#"
    ensures HintedMove(a, 4) == Move(2, 3, Unset, 7, Empty) && SourceHint(a[..2]) == Empty
  {
    assert a[..2] == ([] + ['c']) + ['x'];
    HintsSnoc([] + ['c'], 'x');
    HintsSnoc([], 'c');
  }

  /** Tokens whose leading run is shorter than two characters are invalid. */
  lemma ShortRunsInvalid(b: Board)
    ensures Resolve(b, "") == Err(ErrInvalid)
    ensures Resolve(b, "e") == Err(ErrInvalid)
    ensures Resolve(b, "O-O+") == Err(ErrInvalid)
  {
    SpanUnique("e", IsMoveRune, 1);
    SpanUnique("O-O+", IsMoveRune, 0);
  }

  // ---------------------------------------------------------------------------
  // The King search reads past the board's edge

  /**
   * As written, a King move to the first rank always makes the search read cell
   * `-9 + col`, which is outside the array: Go panics.
   */
  lemma KingFirstRankPanics(b: Board, m: Move, color: Color)
    requires m.toRow == 0 && 0 <= m.toCol < 8
    ensures KingResult(b, m, color) == Err(ErrIndexOutOfRange)
  {
  }

  /** On the starting position, "Kd1" panics rather than resolving or reporting an impossible move. */
  lemma StartKingToFirstRank()
    ensures Resolve(Start, "Kd1") == Err(ErrIndexOutOfRange)
  {
    ResolvePieceMove(Start, "Kd1");
    KingFirstRankPanics(Start, Move(Unset, 3, Unset, 0, Empty), White);
  }

  /** As written, the search wraps across the board's edge: a lone King on a3 is found as the source (8, 1) of "Kh3". */
  lemma KingWrapsAcrossEdge()
    ensures Resolve(Board(true, EmptyCells[Index(0, 2) := Piece(White, King)]), "Kh3") == Ok(Move(8, 7, 1, 2, Empty))
  {
    var b := Board(true, EmptyCells[Index(0, 2) := Piece(White, King)]);
    ResolvePieceMove(b, "Kh3");
    assert KingResult(b, Move(Unset, 7, Unset, 2, Empty), White) == Ok(Move(8, 7, 1, 2, Empty)) by {
      assert b.cells[Index(6, 1)] == NoPiece && b.cells[Index(7, 1)] == NoPiece;
      assert b.cells[Index(8, 1)] == Piece(White, King);
    }
  }

  /** The evidently intended neighbour test: on the board and holding the wanted piece. */
  predicate NeighbourHolds(cells: Cells, col: int, row: int, want: Piece, dx: int, dy: int)
  {
    OnBoard(col + dx, row + dy) && cells[Index(col + dx, row + dy)] == want
  }

  /** The corrected row search: off-board neighbours are skipped instead of read. */
  function KingRowSearch(cells: Cells, col: int, row: int, want: Piece, dr: int, dc: int): Probe
    decreases 2 - dc
  {
    if dc > 1 then Exhausted
    else if !(dr == 0 && dc == 0) && NeighbourHolds(cells, col, row, want, dc, dr) then Found(col + dc, row + dr)
    else KingRowSearch(cells, col, row, want, dr, dc + 1)
  }

  /** The corrected King search, in the same order as the original. */
  function KingSearch(cells: Cells, col: int, row: int, want: Piece, dr: int): Probe
    decreases 2 - dr
  {
    if dr > 1 then Exhausted
    else
      var p := KingRowSearch(cells, col, row, want, dr, -1);
      if p == Exhausted then KingSearch(cells, col, row, want, dr + 1) else p
  }

  /** The King branch with the corrected search. */
  function KingResultOnBoard(b: Board, m: Move, color: Color): Parsed
  {
    match KingSearch(b.cells, m.toCol, m.toRow, Piece(color, King), -1)
    case Found(x, y) => Ok(m.(fromCol := x, fromRow := y))
    case _ => Err(ErrImpossible)
  }

  lemma {:induction false} KingRowSearchMeaning(cells: Cells, col: int, row: int, want: Piece, dr: int, dc: int)
    ensures KingRowSearch(cells, col, row, want, dr, dc) != IndexPanic
    ensures KingRowSearch(cells, col, row, want, dr, dc).Found? ==>
      var p := KingRowSearch(cells, col, row, want, dr, dc);
      dc <= p.col - col <= 1 && !(dr == 0 && p.col == col) && NeighbourHolds(cells, col, row, want, p.col - col, dr) && p.row == row + dr
    ensures KingRowSearch(cells, col, row, want, dr, dc) == Exhausted <==>
      forall dx :: dc <= dx <= 1 && !(dr == 0 && dx == 0) ==> !NeighbourHolds(cells, col, row, want, dx, dr)
    decreases 2 - dc
  {
    if dc <= 1 {
      KingRowSearchMeaning(cells, col, row, want, dr, dc + 1);
    }
  }

  lemma {:induction false} KingSearchMeaning(cells: Cells, col: int, row: int, want: Piece, dr: int)
    ensures KingSearch(cells, col, row, want, dr) != IndexPanic
    ensures KingSearch(cells, col, row, want, dr).Found? ==>
      var p := KingSearch(cells, col, row, want, dr);
      dr <= p.row - row <= 1 && -1 <= p.col - col <= 1 && (p.col, p.row) != (col, row) &&
      NeighbourHolds(cells, col, row, want, p.col - col, p.row - row)
    ensures KingSearch(cells, col, row, want, dr) == Exhausted <==>
      forall dx, dy :: -1 <= dx <= 1 && dr <= dy <= 1 && !(dx == 0 && dy == 0) ==> !NeighbourHolds(cells, col, row, want, dx, dy)
    decreases 2 - dr
  {
    if dr <= 1 {
      KingRowSearchMeaning(cells, col, row, want, dr, -1);
      KingSearchMeaning(cells, col, row, want, dr + 1);
    }
  }

  /**
   * The corrected King branch never reads off the board: a resolved source is an on-board
   * neighbour of the destination holding the mover's King, and the move is impossible
   * exactly when no on-board neighbour holds it.
   */
  lemma KingResultOnBoardMeaning(b: Board, m: Move, color: Color)
    ensures KingResultOnBoard(b, m, color).Ok? || KingResultOnBoard(b, m, color) == Err(ErrImpossible)
    ensures KingResultOnBoard(b, m, color).Ok? ==>
      var s := KingResultOnBoard(b, m, color).move;
      s == m.(fromCol := s.fromCol, fromRow := s.fromRow) && OnBoard(s.fromCol, s.fromRow) &&
      Abs(s.fromCol - m.toCol) <= 1 && Abs(s.fromRow - m.toRow) <= 1 && (s.fromCol, s.fromRow) != (m.toCol, m.toRow) &&
      b.cells[Index(s.fromCol, s.fromRow)] == Piece(color, King)
    ensures KingResultOnBoard(b, m, color) == Err(ErrImpossible) <==>
      forall dx, dy :: -1 <= dx <= 1 && -1 <= dy <= 1 && !(dx == 0 && dy == 0) ==>
        !NeighbourHolds(b.cells, m.toCol, m.toRow, Piece(color, King), dx, dy)
  {
    KingSearchMeaning(b.cells, m.toCol, m.toRow, Piece(color, King), -1);
  }

  /** Away from the board's edges the two searches visit the same cells in the same order. */
  lemma {:induction false} KingRowSearchInterior(cells: Cells, col: int, row: int, want: Piece, dr: int, dc: int)
    requires 1 <= col <= 6 && 0 <= row + dr < 8 && -1 <= dc
    ensures KingRowScan(cells, col, row, want, dr, dc) == KingRowSearch(cells, col, row, want, dr, dc)
    decreases 2 - dc
  {
    if dc <= 1 {
      KingRowSearchInterior(cells, col, row, want, dr, dc + 1);
      if !(dr == 0 && dc == 0) {
        assert OnBoard(col + dc, row + dr) && InRange(col + dc, row + dr);
      }
    }
  }

  lemma {:induction false} KingSearchInterior(cells: Cells, col: int, row: int, want: Piece, dr: int)
    requires 1 <= col <= 6 && 1 <= row <= 6 && -1 <= dr
    ensures KingScan(cells, col, row, want, dr) == KingSearch(cells, col, row, want, dr)
    decreases 2 - dr
  {
    if dr <= 1 {
      KingRowSearchInterior(cells, col, row, want, dr, -1);
      KingSearchInterior(cells, col, row, want, dr + 1);
    }
  }

  /** For a destination off the board's edges, the corrected King branch gives what the original gives. */
  lemma KingResultInterior(b: Board, m: Move, color: Color)
    requires 1 <= m.toCol <= 6 && 1 <= m.toRow <= 6
    ensures KingResultOnBoard(b, m, color) == KingResult(b, m, color)
  {
    KingSearchInterior(b.cells, m.toCol, m.toRow, Piece(color, King), -1);
    KingSearchMeaning(b.cells, m.toCol, m.toRow, Piece(color, King), -1);
  }
}
