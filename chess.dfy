/**
 * Package chess: an 8x8 board of (colour, piece type) cells with a side-to-move flag,
 * built from the placement field of a FEN string, and the resolver that turns a move
 * in standard algebraic notation (SAN) into source and destination coordinates.
 *
 * Strings stand for Go byte strings: each character is one byte.
 */
module Chess {
  import opened Wrappers
  import opened Text

  datatype Color = Black | White

  datatype PieceType = Empty | Pawn | Bishop | Knight | Rook | Queen | King

  /** A cell's content, as `MakePiece` builds it. The Go zero value, a black `Empty`, is an empty cell. */
  datatype Piece = Piece(color: Color, kind: PieceType)

  const NoPiece := Piece(Black, Empty)

  /** The `pieceChar` table: the upper-case piece letters. */
  function PieceOfLetter(ch: char): (r: Option<PieceType>)
    ensures r.Some? <==> ch in "KQNRBP"
    ensures r.Some? ==> r.value != Empty
  {
    match ch
    case 'K' => Some(King)
    case 'Q' => Some(Queen)
    case 'N' => Some(Knight)
    case 'R' => Some(Rook)
    case 'B' => Some(Bishop)
    case 'P' => Some(Pawn)
    case _ => None
  }

  /** The table is one-to-one and names every piece type but `Empty`. */
  lemma PieceLetterTable(ch: char, other: char, t: PieceType)
    ensures PieceOfLetter(ch).Some? && PieceOfLetter(ch) == PieceOfLetter(other) ==> ch == other
    ensures t != Empty ==> exists c :: PieceOfLetter(c) == Some(t)
  {
    if t != Empty {
      var c := match t
        case King => 'K' case Queen => 'Q' case Knight => 'N'
        case Rook => 'R' case Bishop => 'B' case _ => 'P';
      assert PieceOfLetter(c) == Some(t);
    }
  }

  /** The characters the resolver accepts in the leading run of a move token. */
  predicate IsMoveRune(ch: char)
  {
    PieceOfLetter(ch).Some? || ch == 'x' || ('1' <= ch <= '9') || ('a' <= ch <= 'h')
  }

  /** The move runes are exactly the six piece letters, the capture mark, the digits 1-9 and the files a-h. */
  lemma MoveRunes(ch: char)
    ensures IsMoveRune(ch) <==> ch in "KQNRBPx123456789abcdefgh"
  {
  }

  // ---------------------------------------------------------------------------
  // The board

  type Cells = s: seq<Piece> | |s| == 64 witness seq(64, _ => NoPiece)

  const EmptyCells: Cells := seq(64, _ => NoPiece)

  /** The value of a position: whose move it is and the 64 cells. */
  datatype Board = Board(whiteMove: bool, cells: Cells)

  /** The cell `At(x, y)` reads: `y*8+x`, with no check that x and y are on the board. */
  function Index(x: int, y: int): int { y * 8 + x }

  /** Go indexes the cell array without panicking. */
  predicate InRange(x: int, y: int) { 0 <= Index(x, y) < 64 }

  predicate OnBoard(x: int, y: int) { 0 <= x < 8 && 0 <= y < 8 }

  function Abs(x: int): nat { if x < 0 then -x else x }

  /** Distinct squares of the board are distinct cells, and every cell is one square. */
  lemma SquaresAreCells(x1: int, y1: int, x2: int, y2: int)
    requires OnBoard(x1, y1) && OnBoard(x2, y2)
    ensures InRange(x1, y1)
    ensures Index(x1, y1) == Index(x2, y2) <==> x1 == x2 && y1 == y2
  {
  }

  /** A position, whose cells `setPiece` updates in place. */
  class Position {
    var whiteMove: bool
    const pieces: array<Piece>

    ghost predicate Valid()
      reads this
    {
      pieces.Length == 64
    }

    /** The value this position currently holds. */
    function View(): Board
      reads this, pieces
      requires Valid()
    {
      Board(whiteMove, pieces[..])
    }

    /** `&Position{whiteMove: w}`: every cell is the zero piece. */
    constructor (whiteMove: bool)
      ensures Valid() && fresh(pieces)
      ensures View() == Board(whiteMove, EmptyCells)
    {
      this.whiteMove := whiteMove;
      pieces := new Piece[64](_ => NoPiece);
    }

    /** `pos.pieces[y*8+x]`: Go checks no coordinate, and an index outside the array panics, so the read is defined only in range. */
    function At(x: int, y: int): (p: Piece)
      reads this, pieces
      requires Valid() && InRange(x, y)
      ensures p == View().cells[Index(x, y)]
    {
      pieces[Index(x, y)]
    }

    method SetPiece(x: int, y: int, p: Piece)
      requires Valid() && InRange(x, y)
      modifies pieces
      ensures View() == old(View()).(cells := old(View().cells)[Index(x, y) := p])
    {
      pieces[Index(x, y)] := p;
    }

    /** Resolves a SAN token against this position; the position is only read. */
    method Parse(a: string) returns (r: Parsed)
      requires Valid()
      ensures r == Resolve(View(), a)
    {
      if |a| == 0 {
        return Err(ErrInvalid);
      }
      var m := NewMove();
      if a == "O-O" || a == "O-O-O" {
        m := m.(fromCol := 4, fromRow := 0, toCol := 6);
        if !whiteMove {
          m := m.(fromRow := 7);
        }
        if a == "O-O-O" {
          m := m.(toCol := 2);
        }
        m := m.(toRow := m.fromRow);
        return Ok(m);
      }
      var end := MoveEnd(a);
      if end < 2 {
        return Err(ErrInvalid);
      }
      var source;
      m, source := ReadHints(a, end);
      if m.fromCol != Unset && m.toCol != Unset && m.fromRow != Unset && m.toRow != Unset {
        return Ok(m);
      }
      var color := if whiteMove then White else Black;
      if source == King {
        r := FindKing(m, color);
        return;
      } else if source == Queen {
        r := FindQueen(m, color);
        return;
      }
      return Ok(m);
    }

    /** The King branch of `Parse`: the first neighbour of the destination holding the mover's King. */
    method FindKing(m: Move, color: Color) returns (r: Parsed)
      requires Valid()
      ensures r == KingResult(View(), m, color)
    {
      ghost var cells := pieces[..];
      ghost var want := Piece(color, King);
      for dr := -1 to 2
        invariant KingScan(cells, m.toCol, m.toRow, want, -1) == KingScan(cells, m.toCol, m.toRow, want, dr)
      {
        for dc := -1 to 2
          invariant KingRowScan(cells, m.toCol, m.toRow, want, dr, -1) == KingRowScan(cells, m.toCol, m.toRow, want, dr, dc)
        {
          if dr == 0 && dc == 0 {
            continue;
          }
          var x, y := m.toCol + dc, m.toRow + dr;
          if !(0 <= y * 8 + x < 64) {
            return Err(ErrIndexOutOfRange);
          }
          var piece := At(x, y);
          if piece.kind == King && piece.color == color {
            return Ok(m.(fromCol := x, fromRow := y));
          }
        }
      }
      return Err(ErrImpossible);
    }

    /**
     * The Queen branch of `Parse`: the first cell holding the mover's Queen on the
     * destination's rank, then its file, then its four diagonals.
     */
    method FindQueen(m: Move, color: Color) returns (result: Parsed)
      requires Valid()
      ensures result == QueenResult(View(), m, color)
    {
      ghost var cells := pieces[..];
      ghost var want := Piece(color, Queen);
      ghost var all := QueenSquares(m.toCol, m.toRow);
      ghost var todo := all;
      // Horizontal.
      for c := 0 to 8
        invariant todo == all[c..]
        invariant Scan(cells, all, want) == Scan(cells, todo, want)
      {
        assert todo[0] == (c, m.toRow);
        if !(0 <= m.toRow * 8 + c < 64) {
          return Err(ErrIndexOutOfRange);
        }
        var piece := At(c, m.toRow);
        if piece.kind == Queen && piece.color == color {
          return Ok(m.(fromCol := c, fromRow := m.toRow));
        }
        todo := todo[1..];
      }
      // Vertical.
      for r := 0 to 8
        invariant todo == all[8 + r..]
        invariant Scan(cells, all, want) == Scan(cells, todo, want)
      {
        assert todo[0] == (m.toCol, r);
        if !(0 <= r * 8 + m.toCol < 64) {
          return Err(ErrIndexOutOfRange);
        }
        var piece := At(m.toCol, r);
        if piece.kind == Queen && piece.color == color {
          return Ok(m.(fromCol := m.toCol, fromRow := r));
        }
        todo := todo[1..];
      }
      assert todo == Diagonals(m.toCol, m.toRow, 0);
      DiagonalsByRay(cells, m.toCol, m.toRow, want, 0);
      result := FindQueenDiagonal(m, color);
    }

    /** The diagonal part of the Queen search, walking outwards from the destination in four directions. */
    method FindQueenDiagonal(m: Move, color: Color) returns (result: Parsed)
      requires Valid()
      ensures result == QueenFound(m, RaysProbe(View().cells, m.toCol, m.toRow, Piece(color, Queen), 0))
    {
      ghost var cells := pieces[..];
      ghost var want := Piece(color, Queen);
      // The nested loops over dr in {-1, 1} and dc in {-1, 1}, flattened: direction k is (dr, dc) of Ray k.
      for k := 0 to 4
        invariant RaysProbe(cells, m.toCol, m.toRow, want, 0) == RaysProbe(cells, m.toCol, m.toRow, want, k)
      {
        var dr := if k < 2 then -1 else 1;
        var dc := if k == 0 || k == 2 then -1 else 1;
        var found := WalkFind(m.toCol + dc, m.toRow + dr, dc, dr, color);
        assert found == Scan(cells, Ray(m.toCol, m.toRow, k), want);
        if found.Found? {
          return Ok(m.(fromCol := found.col, fromRow := found.row));
        }
      }
      return Ok(m);
    }

    /** One diagonal of the Queen search: the cells from (c0, r0) in steps of (dc, dr) up to the board's edge. */
    method WalkFind(c0: int, r0: int, dc: int, dr: int, color: Color) returns (found: Probe)
      requires Valid() && (dc == 1 || dc == -1)
      ensures found == Scan(View().cells, Walk(c0, r0, dc, dr), Piece(color, Queen))
      ensures found != IndexPanic
    {
      ghost var cells := pieces[..];
      ghost var want := Piece(color, Queen);
      var r, c := r0, c0;
      while true
        invariant Scan(cells, Walk(c0, r0, dc, dr), want) == Scan(cells, Walk(c, r, dc, dr), want)
        decreases if OnBoard(c, r) then (if dc > 0 then 8 - c else c + 1) else 0
      {
        if r < 0 || c < 0 || r >= 8 || c >= 8 {
          break;
        }
        var piece := At(c, r);
        if piece.kind == Queen && piece.color == color {
          return Found(c, r);
        }
        WalkStep(c, r, dc, dr);
        r := r + dr;
        c := c + dc;
      }
      return Exhausted;
    }
  }

  /** The loop of `Parse` that measures the leading run of move runes, e.g. "gxh8" in "gxh8=Q#". */
  method MoveEnd(a: string) returns (end: nat)
    ensures end == Span(a, IsMoveRune)
  {
    end := 0;
    while end < |a| && IsMoveRune(a[end])
      invariant 0 <= end <= |a|
      invariant forall k :: 0 <= k < end ==> IsMoveRune(a[k])
    {
      end := end + 1;
    }
    SpanUnique(a, IsMoveRune, end);
  }

  /**
   * The loop of `Parse` over the characters before the destination: the last piece letter
   * names the source, the last rank digit and file letter give the source square.
   */
  method ReadHints(a: string, end: nat) returns (m: Move, source: PieceType)
    requires 2 <= end <= |a|
    ensures m == HintedMove(a, end) && source == SourceHint(a[..end - 2])
  {
    m := NewMove();
    m := m.(toRow := ByteSub(a[end - 1], '1'), toCol := ByteSub(a[end - 2], 'a'));
    source := Empty;
    var capturing := false;
    for i := 0 to end - 2
      invariant source == SourceHint(a[..i])
      invariant m == Move(FileHint(a[..i]), ByteSub(a[end - 2], 'a'), RankHint(a[..i]), ByteSub(a[end - 1], '1'), Empty)
    {
      var ch := a[i];
      assert a[..i + 1] == a[..i] + [ch];
      HintsSnoc(a[..i], ch);
      var src := PieceOfLetter(ch);
      if src.Some? {
        source := src.value;
      } else if ch == 'x' {
        capturing := true;
      } else if '1' <= ch <= '9' {
        m := m.(fromRow := ch as int - '1' as int);
      } else if 'a' <= ch <= 'h' {
        m := m.(fromCol := ch as int - 'a' as int);
      }
    }
  }

  // ---------------------------------------------------------------------------
  // FEN placement

  /** The piece a placement letter names: `unicode.IsUpper` picks White, `ToUpper` looks the letter up. */
  function FenPiece(ch: char): Option<Piece>
  {
    match PieceOfLetter(ToUpper(ch))
    case Some(t) => Some(Piece(if IsUpper(ch) then White else Black, t))
    case None => None
  }

  predicate IsFenDigit(ch: char) { '0' <= ch <= '8' }

  /** The loop state of `FEN`: the field counter `r`, the column `c` and the cells written so far. */
  datatype FenState = FenState(rank: int, col: int, cells: Cells)

  const FenStart := FenState(0, 0, EmptyCells)

  /** The board row the field counter points at: the first field is row 7. */
  function FenRow(st: FenState): int { 7 - st.rank }

  /** Consuming `ch` does not make `setPiece` index outside the 64 cells (which panics in Go). */
  predicate FenCharFits(st: FenState, ch: char)
  {
    FenPiece(ch).Some? ==> InRange(st.col, FenRow(st))
  }

  /** One iteration of the `FEN` loop. */
  function FenStep(st: FenState, ch: char): FenState
    requires FenCharFits(st, ch)
  {
    if ch == '/' then FenState(st.rank + 1, 0, st.cells)
    else if IsFenDigit(ch) then st.(col := st.col + (ch as int - '0' as int))
    else match FenPiece(ch)
      case Some(p) => FenState(st.rank, st.col + 1, st.cells[Index(st.col, FenRow(st)) := p])
      case None => st.(col := st.col + 1)
  }

  predicate FenFits(st: FenState, s: string)
    decreases |s|
  {
    s == [] || (FenCharFits(st, s[0]) && FenFits(FenStep(st, s[0]), s[1..]))
  }

  /** The state after the `FEN` loop has consumed `s`. */
  function FenRun(st: FenState, s: string): FenState
    requires FenFits(st, s)
    decreases |s|
  {
    if s == [] then st else FenRun(FenStep(st, s[0]), s[1..])
  }

  /** The text `FEN` reads: everything before the first space. */
  function FenPlacement(fen: string): string
  {
    fen[..Span(fen, NotSpace)]
  }

  predicate NotSpace(ch: char) { ch != ' ' }

  /** Builds a position from the placement field of a FEN string; White is always to move. */
  method FEN(fen: string) returns (p: Position)
    requires FenFits(FenStart, FenPlacement(fen))
    ensures fresh(p) && fresh(p.pieces) && p.Valid()
    ensures p.View() == Board(true, FenRun(FenStart, FenPlacement(fen)).cells)
  {
    p := new Position(true);
    ghost var placement := FenPlacement(fen);
    var r, c := 0, 0;
    var i := 0;
    while i < |fen| && fen[i] != ' '
      invariant p.Valid() && p.whiteMove && fresh(p.pieces)
      invariant 0 <= i <= |placement| && placement == fen[..|placement|]
      invariant FenFits(FenState(r, c, p.pieces[..]), placement[i..])
      invariant FenRun(FenState(r, c, p.pieces[..]), placement[i..]) == FenRun(FenStart, placement)
    {
      assert placement[i..][0] == fen[i] && placement[i..][1..] == placement[i + 1..];
      ghost var next := FenStep(FenState(r, c, p.pieces[..]), fen[i]);
      var cr := fen[i];
      if cr == '/' {
        r := r + 1;
        c := 0;
      } else if '0' <= cr <= '8' {
        c := c + (cr as int - '0' as int);
      } else {
        var color := if IsUpper(cr) then White else Black;
        var typ := PieceOfLetter(ToUpper(cr));
        if typ.Some? {
          p.SetPiece(c, 7 - r, Piece(color, typ.value));
        }
        c := c + 1;
      }
      assert FenState(r, c, p.pieces[..]) == next;
      i := i + 1;
    }
  }

  /** The cells one placement character describes: a digit d is d empty cells, any other character one cell. */
  function CharCells(ch: char): seq<Piece>
  {
    if IsFenDigit(ch) then seq(ch as int - '0' as int, _ => NoPiece)
    else [match FenPiece(ch) case Some(p) => p case None => NoPiece]
  }

  /** The cells a rank field describes, character by character. */
  function FieldCells(f: string): seq<Piece>
  {
    if f == [] then [] else CharCells(f[0]) + FieldCells(f[1..])
  }

  /** One character of a field, at column `col` of an empty stretch of its rank, writes its cells there. */
  lemma FenStepField(st: FenState, ch: char)
    requires ch != '/'
    requires 0 <= st.rank < 8 && 0 <= st.col && st.col + |CharCells(ch)| <= 8
    requires forall x :: st.col <= x < 8 ==> st.cells[Index(x, FenRow(st))] == NoPiece
    ensures FenCharFits(st, ch)
    ensures FenStep(st, ch).rank == st.rank && FenStep(st, ch).col == st.col + |CharCells(ch)|
    ensures forall x, y :: OnBoard(x, y) ==>
      FenStep(st, ch).cells[Index(x, y)] ==
        (if y == FenRow(st) && st.col <= x < st.col + |CharCells(ch)| then CharCells(ch)[x - st.col] else st.cells[Index(x, y)])
  {
    if !IsFenDigit(ch) && FenPiece(ch).Some? {
      forall x, y | OnBoard(x, y)
        ensures FenStep(st, ch).cells[Index(x, y)] ==
          (if y == FenRow(st) && st.col <= x < st.col + 1 then CharCells(ch)[x - st.col] else st.cells[Index(x, y)])
      {
        SquaresAreCells(x, y, st.col, FenRow(st));
      }
    } else {
      forall x, y | OnBoard(x, y) && y == FenRow(st) && st.col <= x < st.col + |CharCells(ch)|
        ensures CharCells(ch)[x - st.col] == st.cells[Index(x, y)]
      {
      }
    }
  }

  /** A field no wider than the board, started at column `col` of an empty stretch of rank `7 - rank`, fills that stretch. */
  lemma {:induction false} FenField(st: FenState, f: string)
    requires '/' !in f
    requires 0 <= st.rank < 8 && 0 <= st.col && st.col + |FieldCells(f)| <= 8
    requires forall x :: st.col <= x < 8 ==> st.cells[Index(x, FenRow(st))] == NoPiece
    ensures FenFits(st, f)
    decreases |f|
    ensures FenRun(st, f).rank == st.rank && FenRun(st, f).col == st.col + |FieldCells(f)|
    ensures forall x, y :: OnBoard(x, y) ==>
      FenRun(st, f).cells[Index(x, y)] ==
        (if y == FenRow(st) && st.col <= x < st.col + |FieldCells(f)| then FieldCells(f)[x - st.col] else st.cells[Index(x, y)])
  {
    if f != [] {
      var ch := f[0];
      var head := CharCells(ch);
      var rest := FieldCells(f[1..]);
      assert FieldCells(f) == head + rest;
      assert ch != '/' by { assert f[0] in f; }
      FenStepField(st, ch);
      var next := FenStep(st, ch);
      assert forall x :: next.col <= x < 8 ==> next.cells[Index(x, FenRow(next))] == NoPiece by {
        forall x | next.col <= x < 8 ensures next.cells[Index(x, FenRow(next))] == NoPiece {
          assert OnBoard(x, FenRow(st));
        }
      }
      assert '/' !in f[1..] by {
        forall k | 0 <= k < |f[1..]| ensures f[1..][k] != '/' { assert f[1..][k] == f[k + 1]; }
      }
      FenField(next, f[1..]);
      var fin := FenRun(st, f);
      assert fin == FenRun(next, f[1..]);
      forall x, y | OnBoard(x, y)
        ensures fin.cells[Index(x, y)] ==
          (if y == FenRow(st) && st.col <= x < st.col + |FieldCells(f)| then FieldCells(f)[x - st.col] else st.cells[Index(x, y)])
      {
        if y == FenRow(st) && st.col <= x < st.col + |head| {
          assert FieldCells(f)[x - st.col] == head[x - st.col];
        } else if y == FenRow(st) && next.col <= x < next.col + |rest| {
          assert FieldCells(f)[x - st.col] == rest[x - next.col];
        }
      }
    }
  }

  lemma {:induction false} FenRunAppend(st: FenState, a: string, b: string)
    requires FenFits(st, a) && FenFits(FenRun(st, a), b)
    ensures FenFits(st, a + b) && FenRun(st, a + b) == FenRun(FenRun(st, a), b)
    decreases |a|
  {
    if a != [] {
      assert (a + b)[0] == a[0] && (a + b)[1..] == a[1..] + b;
      var next := FenStep(st, a[0]);
      assert FenRun(st, a) == FenRun(next, a[1..]);
      FenRunAppend(next, a[1..], b);
      assert FenFits(st, a + b);
    } else {
      assert a + b == b;
    }
  }

  /**
   * The r-th of the '/'-separated fields lands on rank 7 - r: a placement whose fields
   * are each at most eight cells wide fills those ranks with the fields' cells and leaves
   * the rest of the board as it was.
   */
  lemma {:induction false} FenRanks(st: FenState, fields: seq<string>)
    requires 1 <= |fields| && st.col == 0 && 0 <= st.rank && st.rank + |fields| <= 8
    requires forall q :: 0 <= q < |fields| ==> '/' !in fields[q] && |FieldCells(fields[q])| <= 8
    requires forall x, y :: OnBoard(x, y) && st.rank <= 7 - y ==> st.cells[Index(x, y)] == NoPiece
    ensures FenFits(st, Join(fields, '/'))
    ensures forall x, y :: OnBoard(x, y) ==>
      FenRun(st, Join(fields, '/')).cells[Index(x, y)] ==
        (if st.rank <= 7 - y < st.rank + |fields| && x < |FieldCells(fields[7 - y - st.rank])|
         then FieldCells(fields[7 - y - st.rank])[x] else st.cells[Index(x, y)])
    decreases |fields|
  {
    var f := fields[0];
    assert '/' !in f && |FieldCells(f)| <= 8;
    FenField(st, f);
    var st1 := FenRun(st, f);
    if |fields| == 1 {
      assert Join(fields, '/') == f;
    } else {
      var rest := fields[1..];
      var st2 := FenState(st.rank + 1, 0, st1.cells);
      FenSlash(st, f);
      assert forall x, y :: OnBoard(x, y) && st2.rank <= 7 - y ==> st2.cells[Index(x, y)] == NoPiece by {
        forall x, y | OnBoard(x, y) && st2.rank <= 7 - y
          ensures st2.cells[Index(x, y)] == NoPiece
        {
          assert st1.cells[Index(x, y)] == st.cells[Index(x, y)];
        }
      }
      assert forall q :: 0 <= q < |rest| ==> '/' !in rest[q] && |FieldCells(rest[q])| <= 8 by {
        forall q | 0 <= q < |rest| ensures '/' !in rest[q] && |FieldCells(rest[q])| <= 8 {
          assert rest[q] == fields[q + 1];
        }
      }
      FenRanks(st2, rest);
      FenJoin(st, st2, fields);
      RanksMerge(st, st1, st2, FenRun(st2, Join(rest, '/')).cells, fields);
    }
  }

  /** Reading joined fields is reading the first with its '/' and then the rest. */
  lemma FenJoin(st: FenState, mid: FenState, fields: seq<string>)
    requires |fields| > 1
    requires FenFits(st, fields[0] + "/") && FenRun(st, fields[0] + "/") == mid
    requires FenFits(mid, Join(fields[1..], '/'))
    ensures FenFits(st, Join(fields, '/'))
    ensures FenRun(st, Join(fields, '/')) == FenRun(mid, Join(fields[1..], '/'))
  {
    assert Join(fields, '/') == (fields[0] + "/") + Join(fields[1..], '/');
    FenRunAppend(st, fields[0] + "/", Join(fields[1..], '/'));
  }

  /** Closing a field with '/' moves to the next field, at column 0. */
  lemma FenSlash(st: FenState, f: string)
    requires FenFits(st, f)
    ensures FenFits(st, f + "/")
    ensures FenRun(st, f + "/") == FenState(FenRun(st, f).rank + 1, 0, FenRun(st, f).cells)
  {
    var st1 := FenRun(st, f);
    assert FenFits(st1, "/") && FenRun(st1, "/") == FenState(st1.rank + 1, 0, st1.cells);
    FenRunAppend(st, f, "/");
  }

  /** The layout of the first field and that of the remaining fields, written one after the other, make the layout of all. */
  lemma RanksMerge(st: FenState, st1: FenState, st2: FenState, fin: Cells, fields: seq<string>)
    requires 1 < |fields| && st.col == 0
    requires st2 == FenState(st.rank + 1, 0, st1.cells)
    requires forall x, y :: OnBoard(x, y) ==>
      st1.cells[Index(x, y)] ==
        (if y == FenRow(st) && st.col <= x < st.col + |FieldCells(fields[0])| then FieldCells(fields[0])[x - st.col] else st.cells[Index(x, y)])
    requires forall x, y :: OnBoard(x, y) ==>
      fin[Index(x, y)] ==
        (if st2.rank <= 7 - y < st2.rank + |fields[1..]| && x < |FieldCells(fields[1..][7 - y - st2.rank])|
         then FieldCells(fields[1..][7 - y - st2.rank])[x] else st2.cells[Index(x, y)])
    ensures forall x, y :: OnBoard(x, y) ==>
      fin[Index(x, y)] ==
        (if st.rank <= 7 - y < st.rank + |fields| && x < |FieldCells(fields[7 - y - st.rank])|
         then FieldCells(fields[7 - y - st.rank])[x] else st.cells[Index(x, y)])
  {
    forall x, y | OnBoard(x, y)
      ensures fin[Index(x, y)] ==
        (if st.rank <= 7 - y < st.rank + |fields| && x < |FieldCells(fields[7 - y - st.rank])|
         then FieldCells(fields[7 - y - st.rank])[x] else st.cells[Index(x, y)])
    {
      if st.rank + 1 <= 7 - y < st.rank + |fields| {
        assert fields[1..][7 - y - st2.rank] == fields[7 - y - st.rank];
      }
    }
  }

  const BackRank := [Rook, Knight, Bishop, Queen, King, Bishop, Knight, Rook]

  /** The standard starting layout: White on ranks 0-1, Black on ranks 6-7. */
  function StartCell(x: int, y: int): Piece
    requires OnBoard(x, y)
  {
    if y == 0 then Piece(White, BackRank[x])
    else if y == 1 then Piece(White, Pawn)
    else if y == 6 then Piece(Black, Pawn)
    else if y == 7 then Piece(Black, BackRank[x])
    else NoPiece
  }

  /** The 64 cells of the starting layout, cell i being square (i % 8, i / 8). */
  const StartCells: Cells := seq(64, i requires 0 <= i < 64 => StartCell(i % 8, i / 8))

  /** Cells that hold the starting layout on every square are the starting cells. */
  lemma StartCellsOfLayout(cells: Cells)
    requires forall x, y :: OnBoard(x, y) ==> cells[Index(x, y)] == StartCell(x, y)
    ensures cells == StartCells
  {
    forall i | 0 <= i < 64 ensures cells[i] == StartCells[i] {
      assert Index(i % 8, i / 8) == i && OnBoard(i % 8, i / 8);
    }
  }

  /** The ranks of the default FEN string, from rank 8 down to rank 1. */
  const DefaultFields := ["rnbqkbnr", "pppppppp", "8", "8", "8", "8", "PPPPPPPP", "RNBQKBNR"]

  /** "rnbqkbnr/pppppppp/8/8/8/8/PPPPPPPP/RNBQKBNR w KQkq - 0 1" */
  const DefaultFen := Join(DefaultFields, '/') + " w KQkq - 0 1"

  /** `FEN` reads a space-free placement up to the space that starts the remaining fields. */
  lemma PlacementBeforeSpace(placement: string, rest: string)
    requires ' ' !in placement && rest != [] && rest[0] == ' '
    ensures FenPlacement(placement + rest) == placement
  {
    var fen := placement + rest;
    forall k | 0 <= k < |placement| ensures NotSpace(fen[k]) {
      assert fen[k] == placement[k];
    }
    assert fen[|placement|] == ' ';
    SpanUnique(fen, NotSpace, |placement|);
    assert fen[..|placement|] == placement;
  }

  lemma DefaultPlacement()
    ensures FenPlacement(DefaultFen) == Join(DefaultFields, '/')
  {
    JoinAvoids(DefaultFields, '/', ' ');
    PlacementBeforeSpace(Join(DefaultFields, '/'), " w KQkq - 0 1");
  }

  /** A field made only of piece letters has one cell per letter. */
  lemma {:induction false} LetterFieldCells(f: string)
    requires forall k :: 0 <= k < |f| ==> FenPiece(f[k]).Some?
    ensures FieldCells(f) == seq(|f|, k requires 0 <= k < |f| => FenPiece(f[k]).value)
  {
    if f != [] {
      assert !IsFenDigit(f[0]) by { assert FenPiece(f[0]).Some?; }
      LetterFieldCells(f[1..]);
    }
  }

  /** The first and last fields of the default placement: a side's back rank. */
  lemma BackRankField(f: string, color: Color)
    requires f == if color == White then "RNBQKBNR" else "rnbqkbnr"
    ensures '/' !in f && |FieldCells(f)| == 8
    ensures forall x :: 0 <= x < 8 ==> FieldCells(f)[x] == StartCell(x, if color == White then 0 else 7)
  {
    assert forall k :: 0 <= k < |f| ==> FenPiece(f[k]) == Some(Piece(color, BackRank[k]));
    LetterFieldCells(f);
  }

  /** A field of eight copies of one piece letter: eight cells holding that piece. */
  lemma UniformField(f: string, ch: char)
    requires |f| == 8 && FenPiece(ch).Some?
    requires forall k :: 0 <= k < 8 ==> f[k] == ch
    ensures '/' !in f && |FieldCells(f)| == 8
    ensures forall x :: 0 <= x < 8 ==> FieldCells(f)[x] == FenPiece(ch).value
  {
    LetterFieldCells(f);
  }

  /** The second and seventh fields of the default placement: a side's pawns. */
  lemma PawnField(f: string, color: Color)
    requires f == if color == White then "PPPPPPPP" else "pppppppp"
    ensures '/' !in f && |FieldCells(f)| == 8
    ensures forall x :: 0 <= x < 8 ==> FieldCells(f)[x] == StartCell(x, if color == White then 1 else 6)
  {
    var ch := if color == White then 'P' else 'p';
    assert FenPiece(ch) == Some(Piece(color, Pawn));
    UniformField(f, ch);
  }

  /** The middle fields of the default placement: eight empty cells. */
  lemma EmptyField(f: string, y: int)
    requires f == "8" && 2 <= y < 6
    ensures '/' !in f && |FieldCells(f)| == 8
    ensures forall x :: 0 <= x < 8 ==> FieldCells(f)[x] == StartCell(x, y)
  {
    assert FieldCells(f) == seq(8, _ => NoPiece) + FieldCells([]);
  }

  /** The q-th field of the default placement describes rank 7 - q of the starting layout. */
  lemma DefaultFieldCells(q: int)
    requires 0 <= q < 8
    ensures '/' !in DefaultFields[q] && |FieldCells(DefaultFields[q])| == 8
    ensures forall x :: 0 <= x < 8 ==> FieldCells(DefaultFields[q])[x] == StartCell(x, 7 - q)
  {
    var f := DefaultFields[q];
    if q == 0 {
      BackRankField(f, Black);
    } else if q == 1 {
      PawnField(f, Black);
    } else if q == 6 {
      PawnField(f, White);
    } else if q == 7 {
      BackRankField(f, White);
    } else if q == 2 {
      EmptyField(f, 7 - q);
    } else if q == 3 {
      EmptyField(f, 7 - q);
    } else if q == 4 {
      EmptyField(f, 7 - q);
    } else {
      EmptyField(f, 7 - q);
    }
  }

  /** Eight fields that each describe one rank of the starting layout place that layout. */
  lemma StartLayout(fields: seq<string>)
    requires |fields| == 8
    requires forall q :: 0 <= q < 8 ==> '/' !in fields[q] && |FieldCells(fields[q])| == 8
    requires forall q, x :: 0 <= q < 8 && 0 <= x < 8 ==> FieldCells(fields[q])[x] == StartCell(x, 7 - q)
    ensures FenFits(FenStart, Join(fields, '/'))
    ensures forall x, y :: OnBoard(x, y) ==> FenRun(FenStart, Join(fields, '/')).cells[Index(x, y)] == StartCell(x, y)
  {
    FenRanks(FenStart, fields);
    var cells := FenRun(FenStart, Join(fields, '/')).cells;
    forall x, y | OnBoard(x, y) ensures cells[Index(x, y)] == StartCell(x, y) {
      assert cells[Index(x, y)] == FieldCells(fields[7 - y])[x];
    }
  }

  /** The default FEN string places exactly the standard starting layout. */
  lemma DefaultLayout()
    ensures FenFits(FenStart, FenPlacement(DefaultFen))
    ensures forall x, y :: OnBoard(x, y) ==> FenRun(FenStart, FenPlacement(DefaultFen)).cells[Index(x, y)] == StartCell(x, y)
  {
    DefaultPlacement();
    forall q | 0 <= q < 8
      ensures '/' !in DefaultFields[q] && |FieldCells(DefaultFields[q])| == 8
      ensures forall x :: 0 <= x < 8 ==> FieldCells(DefaultFields[q])[x] == StartCell(x, 7 - q)
    {
      DefaultFieldCells(q);
    }
    StartLayout(DefaultFields);
  }

  /** `Default()`: a fresh copy of the starting position, White to move. */
  method Default() returns (p: Position)
    ensures fresh(p) && fresh(p.pieces) && p.Valid()
    ensures p.View() == Board(true, StartCells)
  {
    DefaultLayout();
    p := FEN(DefaultFen);
    StartCellsOfLayout(p.View().cells);
  }

  // ---------------------------------------------------------------------------
  // Moves and the resolver

  /** The sentinel for an unset coordinate. */
  const Unset := -1

  datatype Move = Move(fromCol: int, toCol: int, fromRow: int, toRow: int, promote: PieceType)

  /** `newMove`: a move whose four coordinates are unset, distinct from every board coordinate. */
  function NewMove(): (m: Move)
    ensures m.fromCol < 0 && m.toCol < 0 && m.fromRow < 0 && m.toRow < 0
    ensures m.promote == Empty
  {
    Move(Unset, Unset, Unset, Unset, Empty)
  }

  datatype ParseError =
    | ErrInvalid          // not algebraic notation
    | ErrImpossible       // no King of the mover's colour next to the destination
    | ErrIndexOutOfRange  // Go's index-out-of-range panic when reading a cell outside the 64

  datatype Parsed = Ok(move: Move) | Err(error: ParseError)

  /** Go's unsigned byte subtraction, which wraps modulo 256. */
  function ByteSub(x: char, y: char): int
  {
    (x as int - y as int) % 256
  }

  predicate IsPieceChar(ch: char) { PieceOfLetter(ch).Some? }
  predicate IsRankChar(ch: char) { '1' <= ch <= '9' }
  predicate IsFileChar(ch: char) { 'a' <= ch <= 'h' }

  /** The moving piece named before the destination: the last piece letter, or `Empty`. */
  function SourceHint(pre: string): PieceType
  {
    var k := LastIndex(pre, IsPieceChar);
    if k < 0 then Empty else PieceOfLetter(pre[k]).value
  }

  /** The source file given before the destination: the last of `a`-`h`, or unset. */
  function FileHint(pre: string): int
  {
    var k := LastIndex(pre, IsFileChar);
    if k < 0 then Unset else pre[k] as int - 'a' as int
  }

  /** The source rank given before the destination: the last of `1`-`9`, or unset. */
  function RankHint(pre: string): int
  {
    var k := LastIndex(pre, IsRankChar);
    if k < 0 then Unset else pre[k] as int - '1' as int
  }

  /** Reading one more character before the destination updates the hints as the Parse loop does. */
  lemma HintsSnoc(pre: string, ch: char)
    ensures SourceHint(pre + [ch]) == if IsPieceChar(ch) then PieceOfLetter(ch).value else SourceHint(pre)
    ensures FileHint(pre + [ch]) == if IsFileChar(ch) then ch as int - 'a' as int else FileHint(pre)
    ensures RankHint(pre + [ch]) == if IsRankChar(ch) then ch as int - '1' as int else RankHint(pre)
  {
    LastIndexSnoc(pre, ch, IsPieceChar);
    LastIndexSnoc(pre, ch, IsRankChar);
    LastIndexSnoc(pre, ch, IsFileChar);
  }

  /** What probing squares in order finds: a cell holding the wanted piece, or first an index Go cannot read, or nothing. */
  datatype Probe = Found(col: int, row: int) | Exhausted | IndexPanic

  /** The square can be read and does not hold the wanted piece. */
  predicate Misses(cells: Cells, sq: (int, int), want: Piece)
  {
    InRange(sq.0, sq.1) && cells[Index(sq.0, sq.1)] != want
  }

  function Scan(cells: Cells, squares: seq<(int, int)>, want: Piece): Probe
  {
    if squares == [] then Exhausted
    else if !InRange(squares[0].0, squares[0].1) then IndexPanic
    else if cells[Index(squares[0].0, squares[0].1)] == want then Found(squares[0].0, squares[0].1)
    else Scan(cells, squares[1..], want)
  }

  /** Squares that are all misses can be skipped. */
  lemma {:induction false} ScanSkip(cells: Cells, squares: seq<(int, int)>, want: Piece, i: nat)
    requires i <= |squares|
    requires forall j :: 0 <= j < i ==> Misses(cells, squares[j], want)
    ensures Scan(cells, squares, want) == Scan(cells, squares[i..], want)
  {
    if i > 0 {
      assert Misses(cells, squares[0], want);
      ScanSkip(cells, squares[1..], want, i - 1);
      assert squares[1..][i - 1..] == squares[i..];
    }
  }

  /**
   * The King search along row offset dr from column offset dc on: the neighbours
   * (col + dc, row + dr), (col + dc + 1, row + dr), ... up to column offset 1, skipping
   * the destination itself.
   */
  function KingRowScan(cells: Cells, col: int, row: int, want: Piece, dr: int, dc: int): Probe
    decreases 2 - dc
  {
    if dc > 1 then Exhausted
    else if dr == 0 && dc == 0 then KingRowScan(cells, col, row, want, dr, dc + 1)
    else if !InRange(col + dc, row + dr) then IndexPanic
    else if cells[Index(col + dc, row + dr)] == want then Found(col + dc, row + dr)
    else KingRowScan(cells, col, row, want, dr, dc + 1)
  }

  /** The King search from row offset dr on: row offsets -1, 0, 1, each searched from column offset -1. */
  function KingScan(cells: Cells, col: int, row: int, want: Piece, dr: int): Probe
    decreases 2 - dr
  {
    if dr > 1 then Exhausted
    else
      var p := KingRowScan(cells, col, row, want, dr, -1);
      if p == Exhausted then KingScan(cells, col, row, want, dr + 1) else p
  }

  /** The on-board squares from (col, row) onwards in steps of (dc, dr), up to the board's edge. */
  function Walk(col: int, row: int, dc: int, dr: int): seq<(int, int)>
    requires dc == 1 || dc == -1
    decreases if OnBoard(col, row) then (if dc > 0 then 8 - col else col + 1) else 0
  {
    if !OnBoard(col, row) then [] else [(col, row)] + Walk(col + dc, row + dr, dc, dr)
  }

  /** The k-th diagonal ray from (col, row), in the search order (dr, dc) = (-1,-1), (-1,1), (1,-1), (1,1). */
  function Ray(col: int, row: int, k: nat): seq<(int, int)>
    requires k < 4
  {
    var dr := if k < 2 then -1 else 1;
    var dc := if k == 0 || k == 2 then -1 else 1;
    Walk(col + dc, row + dr, dc, dr)
  }

  /** The diagonal rays of (col, row) from the k-th on, one after another. */
  function Diagonals(col: int, row: int, k: nat): seq<(int, int)>
    decreases 4 - k
  {
    if k >= 4 then [] else Ray(col, row, k) + Diagonals(col, row, k + 1)
  }

  /** The diagonal search from ray k on, ray by ray: the first ray that is not exhausted decides. */
  function RaysProbe(cells: Cells, col: int, row: int, want: Piece, k: nat): Probe
    decreases 4 - k
  {
    if k >= 4 then Exhausted
    else
      var p := Scan(cells, Ray(col, row, k), want);
      if p == Exhausted then RaysProbe(cells, col, row, want, k + 1) else p
  }

  /** Scanning the concatenated diagonals is the same as probing them ray by ray. */
  lemma {:induction false} DiagonalsByRay(cells: Cells, col: int, row: int, want: Piece, k: nat)
    ensures Scan(cells, Diagonals(col, row, k), want) == RaysProbe(cells, col, row, want, k)
    decreases 4 - k
  {
    if k < 4 {
      ScanAppend(cells, Ray(col, row, k), Diagonals(col, row, k + 1), want);
      DiagonalsByRay(cells, col, row, want, k + 1);
    }
  }

  /** Scanning two lists in turn: the second is only reached when the first is exhausted. */
  lemma {:induction false} ScanAppend(cells: Cells, a: seq<(int, int)>, b: seq<(int, int)>, want: Piece)
    ensures Scan(cells, a + b, want) == if Scan(cells, a, want) == Exhausted then Scan(cells, b, want) else Scan(cells, a, want)
  {
    if a == [] {
      assert a + b == b;
    } else {
      assert (a + b)[0] == a[0] && (a + b)[1..] == a[1..] + b;
      ScanAppend(cells, a[1..], b, want);
    }
  }

  lemma DropHead<T>(x: T, a: seq<T>, b: seq<T>)
    ensures (([x] + a) + b)[1..] == a + b
  {
  }

  lemma WalkStep(col: int, row: int, dc: int, dr: int)
    requires dc == 1 || dc == -1
    requires OnBoard(col, row)
    ensures Walk(col, row, dc, dr) == [(col, row)] + Walk(col + dc, row + dr, dc, dr)
  {
  }

  /** The cells the Queen search visits: the destination's rank, its file, then its diagonals. */
  function QueenSquares(col: int, row: int): seq<(int, int)>
  {
    seq(8, c => (c, row)) + seq(8, r => (col, r)) + Diagonals(col, row, 0)
  }

  function Side(b: Board): Color { if b.whiteMove then White else Black }

  function KingResult(b: Board, m: Move, color: Color): Parsed
  {
    match KingScan(b.cells, m.toCol, m.toRow, Piece(color, King), -1)
    case Found(x, y) => Ok(m.(fromCol := x, fromRow := y))
    case Exhausted => Err(ErrImpossible)
    case IndexPanic => Err(ErrIndexOutOfRange)
  }

  function QueenResult(b: Board, m: Move, color: Color): Parsed
  {
    QueenFound(m, Scan(b.cells, QueenSquares(m.toCol, m.toRow), Piece(color, Queen)))
  }

  /** The outcome of the Queen search: finding none leaves the source unset without an error. */
  function QueenFound(m: Move, probe: Probe): Parsed
  {
    match probe
    case Found(x, y) => Ok(m.(fromCol := x, fromRow := y))
    case Exhausted => Ok(m)
    case IndexPanic => Err(ErrIndexOutOfRange)
  }

  /** The destination-and-hints move of a non-castling token whose move run is `a[..end]`. */
  function HintedMove(a: string, end: nat): Move
    requires 2 <= end <= |a|
  {
    var pre := a[..end - 2];
    Move(FileHint(pre), ByteSub(a[end - 2], 'a'), RankHint(pre), ByteSub(a[end - 1], '1'), Empty)
  }

  predicate IsCastling(a: string) { a == "O-O" || a == "O-O-O" }

  /** Castling: the King's move along its home rank, to the g file short or the c file long. */
  function Castle(b: Board, a: string): Move
  {
    var row := if b.whiteMove then 0 else 7;
    Move(4, if a == "O-O-O" then 2 else 6, row, row, Empty)
  }

  /** A move with all four coordinates given needs no search; only a King or Queen is searched for. */
  function Disambiguate(b: Board, m: Move, source: PieceType): Parsed
  {
    if m.fromCol != Unset && m.toCol != Unset && m.fromRow != Unset && m.toRow != Unset then Ok(m)
    else if source == King then KingResult(b, m, Side(b))
    else if source == Queen then QueenResult(b, m, Side(b))
    else Ok(m)
  }

  /**
   * What `Position.Parse` returns for token `a` on board `b`: castling tokens map to the
   * King's move; otherwise the leading run of move runes must be two characters or longer,
   * its last two give the destination, the characters before them give the hints, and
   * the source is searched for only when the hints leave it open.
   */
  function Resolve(b: Board, a: string): Parsed
  {
    if |a| == 0 then Err(ErrInvalid)
    else if IsCastling(a) then Ok(Castle(b, a))
    else
      var end := Span(a, IsMoveRune);
      if end < 2 then Err(ErrInvalid)
      else Disambiguate(b, HintedMove(a, end), SourceHint(a[..end - 2]))
  }
}
