# chessquery core, modelled in Dafny

chessquery reads PGN archives game by game and scores each game with pluggable
analyzers, keeping for each analyzer the best score and the site of the game that
reached it. This project models the three packages at its core and proves
properties of the model.

- `chess` (`chess.dfy`, `chess_facts.dfy`): the 8x8 board of (colour, piece type)
  cells with a side-to-move flag. `Chess.Position` is a class whose 64 cells live in
  an array that `SetPiece` updates in place. `FEN` builds a position from the
  placement field of a FEN string, and `Default` gives the starting position.
  `Position.Parse` resolves a move in standard algebraic notation (SAN) into source
  and destination coordinates. Each method is proved equal to a function on the
  board's value (`Chess.Board`): `FenRun` for FEN, `Resolve` for the resolver.
  `chess_facts.dfy` proves what those functions mean. `MakePiece` is the datatype
  constructor `Chess.Piece`, and `Position.At` is the array read `pieces[y*8+x]`.
- `pgn` (`pgn.dfy`): tag pairs (`extractMeta`, `asInt`) and movetext tokens
  (`extractMoves`). `Parse` builds one game's record line by line and is proved equal
  to the fold `ParseLines`. `Split` cuts a stream of lines into games and is proved
  equal to the fold `Games`. Go's `bufio.Scanner` line splitting is `ScanLines`.
- `query` (`query.dfy`): `Runner` is a class holding its analyzers in a sequence.
  `Add` appends an analyzer and `Analyze` scores a game with every analyzer, updating
  entries in place. An analyzer is a function from a payload to an int64. Over a
  series of games, each entry ends with the best score and the site of the first game
  that reached it.

`text.dfy` holds the few Go library functions the core relies on: `strings.Split`,
`Join`, `Trim` and `strconv.Atoi`, with their round trips. `wrappers.dfy` holds
`Option`. Strings are sequences of characters, each standing for one byte.

Go panics are modelled in one of two ways:

- In the resolver, a cell read outside the 64-cell array becomes the error
  `ErrIndexOutOfRange`. It happens at the same point of the search as the panic
  would, so the model keeps what the code does.
- In `FEN` and `extractMoves`, the inputs that would panic are excluded by a
  precondition: `FenFits`, `MovesDefined`, `LinesDefined`.

Where the design description and the code disagree, the model follows the code:

- No tag sets `Site`, so the site a runner records is always "" (`Pgn.SiteNeverSet`).
- `At` checks nothing: it indexes the array at `y*8+x`, so a coordinate off the board is read
  as another cell as long as the index lies in 0..63, and Go panics otherwise (see Findings).
- Movetext is split at single spaces, not at any whitespace.
- A Queen search that finds nothing returns the move with its source as the hints gave it, not an error.
  `Qed3` with no Queen to find comes back with source file 4 and the rank unset.
- The promotion test in `chess_test.go:45-58` expects source file 0 and rank 0 for `cxd8=Q#`.
  The code gives file 2 (from the `c` hint) and leaves the rank unset (-1).
  `ChessFacts.StartPawnCapture` states what the code does.

## Model

| member | source | states |
|---|---|---|
| `Text.Span` | chessquery/pkg/chess/chess.go:181-184 | the length of the longest prefix whose characters all pass the test: all before it pass, the next one fails |
| `Text.LastIndex` | chessquery/pkg/chess/chess.go:194-207 | the index of the last match, or -1; nothing after it matches (the last hint of each kind wins) |
| `Text.Split` | chessquery/pkg/pgn/pgn.go:41 | at least one piece, and no piece contains the separator |
| `Text.JoinSplit` | chessquery/pkg/pgn/pgn.go:41-43 | joining the pieces of a split gives back the text |
| `Text.SplitJoin` | chessquery/pkg/pgn/pgn.go:41-43 | splitting a join of separator-free pieces gives back the pieces |
| `Text.TrimRight` | chessquery/pkg/pgn/pgn.go:19 | the result is a prefix of the input, does not end in a cut character, and only cut characters were removed |
| `Text.TrimFramed` | chessquery/pkg/pgn/pgn.go:19 | trimming text framed by cut characters leaves exactly the text inside the frame |
| `Text.Atoi` | chessquery/pkg/pgn/pgn.go:20 | the value lies in the int64 range |
| `Text.DigitRun` | chessquery/pkg/pgn/pgn.go:20 | the leading run of digits: a prefix of the text, all digits, and followed by a non-digit or nothing |
| `Text.Clamp` | chessquery/pkg/pgn/pgn.go:20 | a magnitude read with a sign lands in the int64 range, and one that fits is kept exactly |
| `Text.AtoiOverflow` | chessquery/pkg/pgn/pgn.go:20 | digits whose value passes the largest uint64 give the sign's bound (MaxInt64, or MinInt64 after `-`) whatever non-digit text follows, since the digits are read in order |
| `Text.AtoiTwentyNines` | chessquery/pkg/pgn/pgn.go:20 | `99999999999999999999x` reads as MaxInt64, not 0 |
| `Text.AtoiSyntax` | chessquery/pkg/pgn/pgn.go:20 | digits that fit in a uint64 followed by a non-digit, with or without `-`, read as 0 |
| `Text.NinesValue` | chessquery/pkg/pgn/pgn.go:20 | n nines have the value 10^n - 1 |
| `Text.Decimal` | chessquery/pkg/pgn/pgn.go:20 | a decimal rendering is non-empty, all digits, and has no leading zero |
| `Text.DecimalValue` | chessquery/pkg/pgn/pgn.go:20 | the digits of a rendering have the rendered value |
| `Text.AtoiDecimal` | chessquery/pkg/pgn/pgn.go:20 | `Atoi` reads back every int64 rendered in decimal, with or without a minus sign |
| `Chess.PieceOfLetter` | chessquery/pkg/chess/chess.go:32-39 | a piece type exactly for the six letters `KQNRBP`, and never `Empty` |
| `Chess.PieceLetterTable` | chessquery/pkg/chess/chess.go:32-39 | the table is one-to-one and names every piece type but `Empty` |
| `Chess.MoveRunes` | chessquery/pkg/chess/chess.go:72-77 | a move rune is exactly one of the six piece letters, `x`, `1`-`9` or `a`-`h` |
| `Chess.SquaresAreCells` | chessquery/pkg/chess/chess.go:150-156 | on the board, `y*8+x` is a cell index, and two squares share one exactly when they are the same square |
| `Chess.Position.constructor` | chessquery/pkg/chess/chess.go:114-117 | a fresh position with the given side to move and all 64 cells empty (Go's zero pieces) |
| `Chess.Position.At` | chessquery/pkg/chess/chess.go:150-152 | reads cell `y*8+x` of the position, defined exactly where Go's array index does not panic |
| `Chess.Position.SetPiece` | chessquery/pkg/chess/chess.go:154-156 | writes the piece to cell `y*8+x`; the side to move and every other cell are unchanged |
| `Chess.FEN` | chessquery/pkg/chess/chess.go:44-70 | returns a fresh position, White to move, whose cells are those of the placement loop run over the text before the first space |
| `Chess.PlacementBeforeSpace` | chessquery/pkg/chess/chess.go:48 | the placement loop stops at the first space |
| `Chess.FenField` | chessquery/pkg/chess/chess.go:48-68 | a rank field writes its cells left to right from the current column (a digit d is d empty cells) and touches no other cell |
| `Chess.FenRanks` | chessquery/pkg/chess/chess.go:48-68 | the r-th '/'-separated field fills rank 7 - r; ranks without a field keep their cells |
| `Chess.DefaultPlacement` | chessquery/pkg/chess/chess.go:30 | the default FEN string's placement is its eight rank fields joined by '/' |
| `Chess.DefaultLayout` | chessquery/pkg/chess/chess.go:30 | the default FEN string places exactly the standard starting layout, White on ranks 0-1 and Black on ranks 6-7 |
| `Chess.Default` | chessquery/pkg/chess/chess.go:148 | a fresh position holding the starting layout, White to move |
| `Chess.NewMove` | chessquery/pkg/chess/chess.go:103-112 | all four coordinates unset (negative, so no board coordinate) and no promotion |
| `Chess.Position.Parse` | chessquery/pkg/chess/chess.go:161-279 | the result is `Resolve` of the position's value and the token; the position is only read |
| `Chess.MoveEnd` | chessquery/pkg/chess/chess.go:180-187 | the end index is the length of the token's leading run of move runes |
| `Chess.ReadHints` | chessquery/pkg/chess/chess.go:188-207 | the destination comes from the run's last two characters, byte-subtracted; the source piece, file and rank come from the last letter, file and digit before them |
| `Chess.HintsSnoc` | chessquery/pkg/chess/chess.go:194-207 | one more character before the destination updates the source, file or rank hint as the loop's switch does |
| `Chess.Position.FindKing` | chessquery/pkg/chess/chess.go:217-234 | the result is `KingResult`: the neighbours are visited row offset by row offset; the first holding the mover's King is the source; an unreadable cell is an index error |
| `Chess.Position.FindQueen` | chessquery/pkg/chess/chess.go:235-254 | the result is `QueenResult`: the first mover's Queen on the destination's rank, then its file, then its diagonals |
| `Chess.Position.FindQueenDiagonal` | chessquery/pkg/chess/chess.go:255-274 | the four diagonals in the order (-1,-1), (-1,1), (1,-1), (1,1); the first ray that finds a Queen decides, and none leaves the move as it is |
| `Chess.Position.WalkFind` | chessquery/pkg/chess/chess.go:258-272 | the first cell along one diagonal, up to the board's edge, that holds the mover's Queen; never an index error |
| `ChessFacts.ScanExhausted` | chessquery/pkg/chess/chess.go:237-274 | a search finds nothing exactly when every visited square can be read and misses |
| `ChessFacts.ScanFound` | chessquery/pkg/chess/chess.go:237-274 | a hit is a visited, readable square holding the wanted piece, and every square visited before it can be read and misses |
| `ChessFacts.FirstHolding` | chessquery/pkg/chess/chess.go:237-274 | the index of the first square of a list that can be read and holds the wanted piece, or the list's length; no earlier square holds it |
| `ChessFacts.ScanFirst` | chessquery/pkg/chess/chess.go:237-274 | when every visited square can be read, the search finds exactly the first square holding the piece, or nothing |
| `ChessFacts.KingRowFound` | chessquery/pkg/chess/chess.go:222-232 | a hit on one row offset is a readable neighbour on that row, other than the destination, holding the King |
| `ChessFacts.KingRowExhausted` | chessquery/pkg/chess/chess.go:222-232 | one row offset finds nothing exactly when all its remaining neighbours can be read and miss |
| `ChessFacts.KingFound` | chessquery/pkg/chess/chess.go:221-233 | a hit of the King search is a readable neighbour of the destination holding the King |
| `ChessFacts.KingExhausted` | chessquery/pkg/chess/chess.go:221-233 | the King search finds nothing exactly when all eight neighbours can be read and miss |
| `ChessFacts.KingResultMeaning` | chessquery/pkg/chess/chess.go:217-234 | the King branch never reports invalid notation; a source it fills in is a neighbour of the destination holding the mover's King, and only the source changes; it is impossible exactly when all eight neighbours can be read and none holds that King |
| `ChessFacts.KingRowScanIsScan` | chessquery/pkg/chess/chess.go:222-232 | one row offset of the King search visits that row's neighbours left to right, skipping the destination |
| `ChessFacts.KingScanIsScan` | chessquery/pkg/chess/chess.go:221-233 | the King search visits the rows' neighbours one row after another |
| `ChessFacts.KingNeighbours` | chessquery/pkg/chess/chess.go:221-233 | eight squares, each adjacent to the destination and none the destination |
| `ChessFacts.KingSearchOrder` | chessquery/pkg/chess/chess.go:221-233 | the King search visits the eight neighbours row by row (offset -1, 0, 1), each row left to right |
| `ChessFacts.KingResultFirst` | chessquery/pkg/chess/chess.go:217-234 | when all eight neighbours can be read, there is no index error: the first neighbour in that order holding the mover's King is the source, and with none the move is impossible |
| `ChessFacts.WalkAligned` | chessquery/pkg/chess/chess.go:258-272 | every square of a diagonal walk is on the board, the same number of steps along both axes |
| `ChessFacts.RayAligned` | chessquery/pkg/chess/chess.go:256-274 | every square of a diagonal ray is on the board, on a diagonal through the destination, and not the destination's file |
| `ChessFacts.DiagonalsAligned` | chessquery/pkg/chess/chess.go:255-274 | the same, for the four rays in turn |
| `ChessFacts.QueenSquaresAligned` | chessquery/pkg/chess/chess.go:237-274 | the Queen search visits only the destination's rank, its file and its diagonals |
| `ChessFacts.WalkCovers` | chessquery/pkg/chess/chess.go:258-272 | a diagonal walk reaches every on-board square the same number of steps away along both axes |
| `ChessFacts.RayCovers` | chessquery/pkg/chess/chess.go:256-274 | every on-board square on a diagonal through the destination, other than the destination, lies on the ray towards it |
| `ChessFacts.RayInDiagonals` | chessquery/pkg/chess/chess.go:255-274 | the four rays, visited in turn, contain each ray |
| `ChessFacts.QueenSquaresCover` | chessquery/pkg/chess/chess.go:237-274 | with the destination on the board, the Queen search visits every on-board square of its rank, its file and its diagonals |
| `ChessFacts.QueenSquaresOnBoard` | chessquery/pkg/chess/chess.go:237-274 | with the destination on the board, every square the Queen search visits is on the board |
| `ChessFacts.QueenResultFirst` | chessquery/pkg/chess/chess.go:235-278 | with the destination on the board, the Queen branch fills in the first square, in its visiting order (rank, file, then diagonals), that holds the mover's Queen, and leaves the move as it is when none does |
| `ChessFacts.QueenFoundWhenAligned` | chessquery/pkg/chess/chess.go:235-278 | with the destination on the board, a source is found exactly when a Queen of the mover stands on the destination's rank, file or a diagonal, and the square found is such a Queen |
| `ChessFacts.QueenFirstAligned` | chessquery/pkg/chess/chess.go:237-274 | a visited square is on the board and on the destination's rank, file or a diagonal |
| `ChessFacts.QueenAlignedVisited` | chessquery/pkg/chess/chess.go:237-274 | a Queen on the destination's rank, file or a diagonal makes the search find a source |
| `ChessFacts.QueenResultMeaning` | chessquery/pkg/chess/chess.go:235-278 | the Queen branch never reports invalid or impossible; a source it fills in holds the mover's Queen on the destination's rank, file or a diagonal (no check that the way is clear), and only the source changes |
| `ChessFacts.QueenAbsent` | chessquery/pkg/chess/chess.go:235-278 | with the destination on the board and no Queen of the mover anywhere, the move comes back unchanged and without error |
| `ChessFacts.ResolveInvalid` | chessquery/pkg/chess/chess.go:161-187 | invalid notation is reported exactly for the empty token, or a non-castling token whose move-rune run is shorter than two |
| `ChessFacts.ResolveCastling` | chessquery/pkg/chess/chess.go:167-179 | `O-O` moves the King from file 4 to file 6 and `O-O-O` to file 2, on rank 0 for White to move and rank 7 for Black |
| `ChessFacts.ResolvedMove` | chessquery/pkg/chess/chess.go:181-189 | a resolved move has no promotion; unless castling, its destination is the run's last two characters with byte arithmetic, so it lies in 0..255 |
| `ChessFacts.HintedDestination` | chessquery/pkg/chess/chess.go:188-189 | the hinted move's destination is the byte differences of the run's last two characters, in 0..255 |
| `ChessFacts.DisambiguateKeeps` | chessquery/pkg/chess/chess.go:208-278 | the board searches only ever fill in the source square |
| `ChessFacts.SuffixIgnored` | chessquery/pkg/chess/chess.go:180-187 | text after the leading run of move runes (`+`, `#`, `=Q`) does not change the result |
| `ChessFacts.FullHintsSkipBoard` | chessquery/pkg/chess/chess.go:208-210 | with both a source file and a source rank hinted, the hinted move is returned without consulting the board |
| `ChessFacts.ResolvePieceMove` | chessquery/pkg/chess/chess.go:192-217 | a three-character piece move such as `Nf3` names its piece, leaves the source unset before the search, and takes its destination from the last two characters |
| `ChessFacts.PieceMoveHints` | chessquery/pkg/chess/chess.go:192-207 | the hints of a three-character piece move: only the piece is set |
| `ChessFacts.StartKingMove` | chessquery/pkg/chess/chess.go:217-234 | on the starting position `Kf2` resolves to the King on e1 |
| `ChessFacts.StartQueenMove` | chessquery/pkg/chess/chess.go:235-254 | on the starting position `Qd3` resolves to the Queen on d1, found up the file through the d2 pawn |
| `ChessFacts.StartQueenSearch` | chessquery/pkg/chess/chess.go:237-254 | the empty third rank is passed over, and the file search finds d1 first |
| `ChessFacts.StartPawnCapture` | chessquery/pkg/chess/chess.go:180-210 | on the starting position `cxd8=Q#` gives source file 2 with the rank unset, destination d8 and no promotion |
| `ChessFacts.PawnCaptureHints` | chessquery/pkg/chess/chess.go:192-207 | the hints of `cxd8`: file c, no rank, no piece |
| `ChessFacts.ShortRunsInvalid` | chessquery/pkg/chess/chess.go:162-164 | "", `e` and `O-O+` are invalid notation |
| `ChessFacts.KingFirstRankPanics` | chessquery/pkg/chess/chess.go:221-233 | as written: every King move to the first rank reads a cell before the array, a Go panic |
| `ChessFacts.StartKingToFirstRank` | chessquery/pkg/chess/chess.go:221-233 | as written: `Kd1` on the starting position panics instead of resolving |
| `ChessFacts.KingWrapsAcrossEdge` | chessquery/pkg/chess/chess.go:226 | as written: the search wraps across the board's edge, so a lone King on a3 is taken as the source (8, 1) of `Kh3` |
| `ChessFacts.KingRowSearchMeaning` | chessquery/pkg/chess/chess.go:222-232 | corrected row search: never an index error; a hit is an on-board neighbour holding the King; nothing found exactly when no on-board neighbour on that row holds it |
| `ChessFacts.KingSearchMeaning` | chessquery/pkg/chess/chess.go:221-233 | corrected search: the same over all three row offsets |
| `ChessFacts.KingResultOnBoardMeaning` | chessquery/pkg/chess/chess.go:217-234 | corrected King branch: a source is an on-board neighbour holding the mover's King; impossible exactly when no on-board neighbour holds it |
| `ChessFacts.KingRowSearchInterior` | chessquery/pkg/chess/chess.go:222-232 | away from the side edges, the corrected row search and the original visit the same cells in the same order |
| `ChessFacts.KingSearchInterior` | chessquery/pkg/chess/chess.go:221-233 | away from all edges, the corrected search equals the original |
| `ChessFacts.KingResultInterior` | chessquery/pkg/chess/chess.go:217-234 | for a destination off the board's edges, the corrected King branch gives what the original gives |
| `Pgn.AsInt` | chessquery/pkg/pgn/pgn.go:18-22 | the value read lies in the int64 range |
| `Pgn.AsIntQuoted` | chessquery/pkg/pgn/pgn.go:18-22 | a quoted decimal value, negative or not, is read back exactly |
| `Pgn.QuotedTrim` | chessquery/pkg/pgn/pgn.go:19 | trimming spaces and quotes from a quoted value leaves the value |
| `Pgn.AsIntNoDigits` | chessquery/pkg/pgn/pgn.go:18-22 | a value without any digit, such as `"?"`, reads as 0 |
| `Pgn.ExtractMeta` | chessquery/pkg/pgn/pgn.go:34-46 | a tag pair is recognised exactly when the line has three or more characters and is framed by `[` and `]`; the key has no space |
| `Pgn.ExtractMetaRebuilds` | chessquery/pkg/pgn/pgn.go:34-46 | a recognised line whose bracketed text holds a space is rebuilt exactly from its key and value |
| `Pgn.MetaOfBracketed` | chessquery/pkg/pgn/pgn.go:41-43 | the key is the first space-separated piece inside the brackets and the value the rest joined by spaces |
| `Pgn.ExtractMetaLine` | chessquery/pkg/pgn/pgn.go:34-46 | writing a tag pair with a space-free key as `[key value]` and reading it back gives the same pair |
| `Pgn.SplitKeyValue` | chessquery/pkg/pgn/pgn.go:41-43 | a space-free key followed by a space splits off as the first piece |
| `Pgn.ExtractMoves` | chessquery/pkg/pgn/pgn.go:48-59 | the result is `Moves`: nothing unless the line opens with "1.", else the space-separated tokens that do not start with a digit, in order |
| `Pgn.MoveTokensMeaning` | chessquery/pkg/pgn/pgn.go:52-57 | a token is kept exactly when it is an input token that does not start with a digit |
| `Pgn.MoveTokensAppend` | chessquery/pkg/pgn/pgn.go:52-57 | the filter distributes over concatenation, so kept tokens stay in input order |
| `Pgn.MoveTokensIdempotent` | chessquery/pkg/pgn/pgn.go:52-57 | filtering the kept tokens again changes nothing |
| `Pgn.MovesOfJoin` | chessquery/pkg/pgn/pgn.go:48-59 | a line written as space-free tokens joined by single spaces, opening with "1.", yields the kept tokens |
| `Pgn.NumberedPair` | chessquery/pkg/pgn/pgn.go:52-57 | a move number followed by two moves contributes the two moves |
| `Pgn.AppendPair` | chessquery/pkg/pgn/pgn.go:52-57 | appending a numbered pair of moves adds two moves |
| `Pgn.LastMoveAndResult` | chessquery/pkg/pgn/pgn.go:52-57 | a final move number, a move and a result contribute only the move |
| `Pgn.ShortGameExample` | chessquery/pkg/pgn/pgn_test.go:27-28 | "1. e4 1-0" has the single move "e4" |
| `Pgn.DrawResultExample` | chessquery/pkg/pgn/pgn_test.go:23-24 | "1/2-1/2" has no moves |
| `Pgn.GameOpeningMoves` | chessquery/pkg/pgn/pgn_test.go:19 | moves 1 to 6 of the test game give twelve moves |
| `Pgn.GameMiddleMoves` | chessquery/pkg/pgn/pgn_test.go:19 | moves 7 to 12 of the test game give twelve moves |
| `Pgn.ThirteenMoveGame` | chessquery/pkg/pgn/pgn_test.go:19-20 | the thirteen-move game's movetext yields 25 moves |
| `Pgn.DropCR` | chessquery/pkg/pgn/pgn.go:62-64 | a line loses at most one trailing carriage return |
| `Pgn.ScanLines` | chessquery/pkg/pgn/pgn.go:62-64 | no scanned line contains a newline |
| `Pgn.ScanLinesOfLines` | chessquery/pkg/pgn/pgn.go:62-64 | writing lines out, each ended by a newline, and scanning the text gives the same lines back |
| `Pgn.ApplyLineText` | chessquery/pkg/pgn/pgn.go:68-83 | one line sets Event, White or Black only when it is a tag with that key, and never the site |
| `Pgn.ApplyLineElo` | chessquery/pkg/pgn/pgn.go:77-80 | one line sets a rating only when it is a rating tag with that key, to the value read by `asInt` |
| `Pgn.ApplyLineMoves` | chessquery/pkg/pgn/pgn.go:84-86 | a non-tag line opening with a digit replaces the moves; any other line leaves them |
| `Pgn.Parse` | chessquery/pkg/pgn/pgn.go:61-89 | the record is `ParseLines` of the scanned lines: each line, in order, applied to the zero record |
| `Pgn.SiteNeverSet` | chessquery/pkg/pgn/pgn.go:70-81 | no line sets the site: it stays "" |
| `Pgn.TextTagsLastWins` | chessquery/pkg/pgn/pgn.go:70-76 | Event, White and Black hold the value of the last tag with that key, or "" when there is none |
| `Pgn.EloTagsLastWin` | chessquery/pkg/pgn/pgn.go:77-80 | WhiteElo and BlackElo hold the integer read from the last tag with that key, or 0 |
| `Pgn.MovesLastWins` | chessquery/pkg/pgn/pgn.go:84-86 | the moves are those of the last move line alone (assigned, not accumulated), or none |
| `Pgn.SplitGames` | chessquery/pkg/pgn/pgn.go:93-114 | the games emitted are `Games` of the scanned lines: a header line after a non-header line closes the current game, and the last buffer is always emitted |
| `Pgn.FeedKeepsText` | chessquery/pkg/pgn/pgn.go:101-109 | each line adds exactly that line and a newline to the text held, and the flag records whether it was a header |
| `Pgn.RunKeepsText` | chessquery/pkg/pgn/pgn.go:100-110 | emitted text plus the buffer is every line so far followed by a newline |
| `Pgn.GamesLoseNothing` | chessquery/pkg/pgn/pgn.go:93-114 | the games, concatenated, are every line followed by a newline: nothing lost, duplicated or reordered |
| `Pgn.RunShape` | chessquery/pkg/pgn/pgn.go:100-110 | one game is emitted per header that follows a non-header line; emitted games are non-empty and all but the first open with `[` |
| `Pgn.GamesShape` | chessquery/pkg/pgn/pgn.go:93-114 | the number of games is one more than the number of such headers; later games open with `[`; with non-empty input no game is empty, and empty input gives one empty game (`Pgn.GamesEdges`) |
| `Pgn.Cuts` | chessquery/pkg/pgn/pgn.go:102-107 | the lines where a game is closed, in increasing order, each after the first line |
| `Pgn.CutsMeaning` | chessquery/pkg/pgn/pgn.go:102-107 | a line is a cut exactly when it is a header that follows a non-header line |
| `Pgn.Starts` | chessquery/pkg/pgn/pgn.go:98-111 | where each game starts: the first line, then every cut, increasing and within the lines |
| `Pgn.StartsSnoc` | chessquery/pkg/pgn/pgn.go:102-109 | one more line keeps the starts so far and adds one exactly when it is a cut |
| `Pgn.GamesAtCuts` | chessquery/pkg/pgn/pgn.go:93-114 | the games are exactly the runs of lines between starts: every game but the last ends where a header line follows a non-header line, and the last runs to the end |
| `Pgn.GamesStep` | chessquery/pkg/pgn/pgn.go:100-110 | one more line keeps the games equal to the runs between starts |
| `Pgn.FeedCloses` | chessquery/pkg/pgn/pgn.go:102-108 | a header after a non-header line emits the current game and starts a new one with that line |
| `Pgn.FeedExtends` | chessquery/pkg/pgn/pgn.go:102-108 | any other line joins the current game |
| `Pgn.SegmentsAtCut` | chessquery/pkg/pgn/pgn.go:102-108 | a cut line forms a run of its own after the runs of the lines before it |
| `Pgn.SegmentsWithoutCut` | chessquery/pkg/pgn/pgn.go:102-108 | a line that is not a cut extends the last run |
| `Pgn.SegmentOfPrefix` | chessquery/pkg/pgn/pgn.go:102-108 | a run closed before the last line is unchanged by it |
| `Pgn.GamesPrefix` | chessquery/pkg/pgn/pgn.go:102-108 | the same, for every run but the last |
| `Pgn.GamesEdges` | chessquery/pkg/pgn/pgn.go:98-111 | empty input yields one empty game; input opening with a header yields a first game that opens with `[` |
| `Pgn.FirstGameOpensWithHeader` | chessquery/pkg/pgn/pgn.go:98-111 | the first game starts with the first line |
| `Query.NewPayload` | chessquery/pkg/query/query.go:31-35 | the payload holds the game; its move is Go's zero move (all coordinates 0, no promotion) and its position is Go's zero position: every cell a Black `Empty` piece, Black to move |
| `Query.NewPayloadOnlyGame` | chessquery/pkg/query/query.go:31-35 | the payload carries the game and nothing else: payloads are equal exactly when games are, and all share one move and one position |
| `Query.Update` | chessquery/pkg/query/query.go:73-78 | the new best is the larger of the old best and the game's score; the site moves to the game's only on strict improvement, and a tie or worse changes nothing; name, cadence and analyzer are kept |
| `Query.AnalyzeAll` | chessquery/pkg/query/query.go:69-80 | every entry is updated, none added or dropped |
| `Query.Runner.constructor` | chessquery/pkg/query/query.go:56-58 | a runner with no analyzers |
| `Query.Runner.Add` | chessquery/pkg/query/query.go:60-67 | appends one entry with the lowest int64 as its best and no site |
| `Query.Runner.Analyze` | chessquery/pkg/query/query.go:69-80 | the entries become `AnalyzeAll` of the old entries and the game, whatever their cadence |
| `Query.AnalyzeAllKeepsEntries` | chessquery/pkg/query/query.go:71-79 | analyzing keeps the number, order, names, cadences and analyzers; each score becomes the larger of the old score and the game's |
| `Query.ReplayAllPointwise` | chessquery/pkg/query/query.go:69-80 | over many games each entry evolves on its own, as if it were the only analyzer |
| `Query.ReplayBest` | chessquery/pkg/query/query.go:75-78 | after the games, the score is the best of the initial score and every game's score |
| `Query.BestBounds` | chessquery/pkg/query/query.go:75-78 | that best is at least the initial score and every game's score, and equals one of them |
| `Query.ReplayMonotone` | chessquery/pkg/query/query.go:75-78 | more games never lower the score |
| `Query.FirstBest` | chessquery/pkg/query/query.go:75-78 | the first game that beats the initial score and reaches the given best, if any |
| `Query.ReplaySite` | chessquery/pkg/query/query.go:75-78 | the site is that of the first game that reached the final best, if it beat the initial score, else the initial site; later ties do not move it |
| `Query.FirstBestStrict` | chessquery/pkg/query/query.go:75-78 | a game strictly better than all before it is the first to reach the new best |
| `Query.FirstBestKept` | chessquery/pkg/query/query.go:75-78 | a game that does not beat the best keeps the best and the first game that reached it |

## Left out

- `Position.String` and `Runner.PrintResults` only format text for output. They are not modelled.
- `Split` runs in a goroutine and sends games on a channel. The model returns them as a sequence in the same order.
- `bufio.Scanner`'s 64 KiB line limit and its read errors are not modelled. A line is never too long here.
- `Parse` in the pgn package always returns a nil error. The model returns only the record.
- `strconv.Atoi`'s error value is ignored by `asInt`, so only its value is modelled: 0 on a syntax error, the sign's bound on a range error.
- Go's nil and empty move slices are both the empty sequence.
- Bytes above 127 are not modelled. `unicode.IsUpper` and `ToUpper` are modelled on ASCII letters.
- `Chess.FEN`: inputs whose placement would write outside the 64 cells (a Go panic) are excluded by the precondition `FenFits`.
- `Pgn.ExtractMoves`: lines shorter than two characters, or opening with "1." and holding an empty token, panic in Go. They are excluded by `MovesDefined`, and `Pgn.Parse` requires it of every line it hands over (`LinesDefined`).
- `Chess.Position.At`: the index `y*8+x` is unchecked. Its precondition `InRange` stands for the Go panic on an index outside the array, which the resolver reports as `ErrIndexOutOfRange`.
- Analyzers are pure functions of the payload here. An analyzer with internal state is not modelled, nor one that changes the payload it is handed; the payload is fresh for each analyzer call anyway.
- The cadence is stored but never consulted by `Analyze`. The model does the same.
- The first test case in `pgn_test.go` expects 86 moves from a movetext with `{ [%eval ...] }` comments. `extractMoves` keeps the `{`, `}` and `[%eval` tokens too, since they do not start with a digit, so the code does not give 86. The case is not modelled.
- `analyzers.go`, `main.go` and the downloader command are outside the modelled core.

## Findings

| source | as written | input that shows it | evidently intended | confidence | as-written member | corrected member |
|---|---|---|---|---|---|---|
| chessquery/pkg/chess/chess.go:221-233 | the King search reads `At(toCol+c, toRow+r)` for every neighbour, including neighbours off the board | `Kd1` on the starting position: the first neighbour read is (2, -1), cell -6, and Go panics | off-board neighbours are skipped, and the King on e1 is found | not executed | `ChessFacts.KingFirstRankPanics` | `ChessFacts.KingResultOnBoardMeaning` |
| chessquery/pkg/chess/chess.go:226 | neighbours one column beyond the h file are read as the a file of the next rank | a lone White King on a3 and `Kh3`: the source comes back as column 8, rank 1 | no source off the board; with no King next to h3 the move is impossible | not executed | `ChessFacts.KingWrapsAcrossEdge` | `ChessFacts.KingResultOnBoardMeaning` |
