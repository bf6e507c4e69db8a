/**
 * PGN text handling: tag pairs, movetext tokens, the per-game record and the rule
 * that cuts a stream of lines into games.
 */
module Pgn {
  import opened Wrappers
  import opened Text

  /** A tag pair such as `[White "Carlsen"]`; the value keeps its quotes. */
  datatype Meta = Meta(key: string, value: string)

  /** The record assembled for one game; absent tags leave the zero value. */
  datatype Result = Result(
    event: string, site: string, white: string, black: string,
    whiteElo: int, blackElo: int, moves: seq<string>)

  const EmptyResult := Result("", "", "", "", 0, 0, [])

  /** The characters `asInt` trims from both ends of a value. */
  const ValueCut: set<char> := {' ', '"'}

  /** The value read as a decimal integer, 0 when it is not one. */
  function AsInt(m: Meta): (v: int)
    ensures MinInt <= v <= MaxInt
  {
    Atoi(Trim(m.value, ValueCut))
  }

  /** A quoted decimal value, as tag values are written, is read back exactly. */
  lemma AsIntQuoted(key: string, n: nat, negative: bool)
    requires n <= MaxInt
    ensures var digits := if negative then "-" + Decimal(n) else Decimal(n);
      AsInt(Meta(key, Quoted(digits))) == if negative then -(n as int) else n
  {
    var digits := if negative then "-" + Decimal(n) else Decimal(n);
    assert digits[|digits| - 1] == Decimal(n)[|Decimal(n)| - 1];
    QuotedTrim(digits);
    AtoiDecimal(n);
  }

  /** A value in double quotes, as PGN writes tag values. */
  function Quoted(t: string): string
  {
    "\"" + t + "\""
  }

  lemma QuotedTrim(t: string)
    requires t != [] && t[0] !in ValueCut && t[|t| - 1] !in ValueCut
    ensures Trim(Quoted(t), ValueCut) == t
  {
    TrimFramed("\"", t, "\"", ValueCut);
  }

  /** A value without any digit, such as `"?"` or `"-"`, reads as 0. */
  lemma AsIntNoDigits(m: Meta)
    requires forall k :: 0 <= k < |m.value| ==> !IsDigit(m.value[k])
    ensures AsInt(m) == 0
  {
    var s := m.value;
    var n := Span(s, ch => ch in ValueCut);
    var t := Trim(s, ValueCut);
    assert t == TrimRight(s[n..], ValueCut);
    assert forall k :: 0 <= k < |t| ==> t[k] == s[n + k];
  }

  /** `[` + key + ` ` + value + `]`: the line a tag pair is written as. */
  function MetaLine(m: Meta): string
  {
    Bracketed(m.key + " " + m.value)
  }

  function Bracketed(t: string): string
  {
    "[" + t + "]"
  }

  /** A line of at least three characters in square brackets is a tag pair: key up to the first space, value after it. */
  function ExtractMeta(s: string): (r: Option<Meta>)
    ensures r.Some? <==> |s| >= 3 && s[0] == '[' && s[|s| - 1] == ']'
    ensures r.Some? ==> ' ' !in r.value.key
  {
    if |s| < 3 || s[0] != '[' || s[|s| - 1] != ']' then None
    else
      var p := Split(s[1..|s| - 1], ' ');
      Some(Meta(p[0], Join(p[1..], ' ')))
  }

  /** A recognised tag line whose bracketed text holds a space is rebuilt exactly from its key and value. */
  lemma ExtractMetaRebuilds(s: string)
    requires |s| >= 3 && s[0] == '[' && s[|s| - 1] == ']' && ' ' in s[1..|s| - 1]
    ensures ExtractMeta(s).Some? && MetaLine(ExtractMeta(s).value) == s
  {
    var inner := s[1..|s| - 1];
    assert s == Bracketed(inner);
    MetaOfBracketed(s, inner);
    SplitFirst(inner, ' ');
  }

  /** The tag pair read from a bracketed line comes from splitting the text inside the brackets. */
  lemma MetaOfBracketed(s: string, inner: string)
    requires inner != [] && s == Bracketed(inner)
    ensures var p := Split(inner, ' ');
      ExtractMeta(s) == Some(Meta(p[0], Join(p[1..], ' ')))
  {
    assert s[1..|s| - 1] == inner;
  }

  /** Writing a tag pair with a space-free key and reading it back gives the same pair. */
  lemma ExtractMetaLine(m: Meta)
    requires ' ' !in m.key
    ensures ExtractMeta(MetaLine(m)) == Some(m)
  {
    var inner := m.key + " " + m.value;
    MetaOfBracketed(MetaLine(m), inner);
    SplitKeyValue(m.key, m.value);
    var p := Split(inner, ' ');
    assert p[0] == m.key && p[1..] == Split(m.value, ' ');
    JoinSplit(m.value, ' ');
  }

  /** Text with a space-free key before the first space splits into the key and the split of the rest. */
  lemma SplitKeyValue(key: string, value: string)
    requires ' ' !in key
    ensures Split(key + " " + value, ' ') == [key] + Split(value, ' ')
  {
    var inner := key + " " + value;
    assert inner[..|key|] == key && inner[|key| + 1..] == value;
    SplitAt(inner, ' ', |key|);
  }

  // ---------------------------------------------------------------------------
  // Movetext

  /** No token is empty, so each has a first character. */
  predicate NonEmpty(ts: seq<string>)
  {
    forall i :: 0 <= i < |ts| ==> ts[i] != []
  }

  /** The tokens that are moves: those whose first character is not a digit (move numbers and results drop out). */
  function MoveTokens(ts: seq<string>): seq<string>
    requires NonEmpty(ts)
  {
    if ts == [] then []
    else
      var last := ts[|ts| - 1];
      MoveTokens(ts[..|ts| - 1]) + (if IsDigit(last[0]) then [] else [last])
  }

  /**
   * The inputs on which `extractMoves` does not index out of range: at least two
   * characters, and when the line opens with "1." no two spaces in a row and no
   * space at the end.
   */
  predicate MovesDefined(s: string)
  {
    |s| >= 2 && (s[..2] == "1." ==> NonEmpty(Split(s, ' ')))
  }

  /** The moves of a movetext line: nothing unless it opens with "1.". */
  function Moves(s: string): seq<string>
    requires MovesDefined(s)
  {
    if s[..2] != "1." then [] else MoveTokens(Split(s, ' '))
  }

  /** `extractMoves`: the line's space-separated tokens, keeping those that do not start with a digit. */
  method ExtractMoves(s: string) returns (r: seq<string>)
    requires MovesDefined(s)
    ensures r == Moves(s)
  {
    if s[..2] != "1." {
      return [];
    }
    var t := Split(s, ' ');
    r := [];
    for i := 0 to |t|
      invariant r == MoveTokens(t[..i])
    {
      assert t[..i + 1][..i] == t[..i];
      if !IsDigit(t[i][0]) {
        r := r + [t[i]];
      }
    }
    assert t[..|t|] == t;
  }

  /** A token is kept exactly when it is one of the input tokens and does not start with a digit. */
  lemma {:induction false} MoveTokensMeaning(ts: seq<string>, t: string)
    requires NonEmpty(ts)
    ensures t in MoveTokens(ts) <==> t in ts && !IsDigit(t[0])
  {
    if ts != [] {
      var init := ts[..|ts| - 1];
      MoveTokensMeaning(init, t);
      assert ts == init + [ts[|ts| - 1]];
    }
  }

  /** Filtering splits over concatenation, so the kept tokens stay in input order. */
  lemma {:induction false} MoveTokensAppend(a: seq<string>, b: seq<string>)
    requires NonEmpty(a) && NonEmpty(b)
    ensures MoveTokens(a + b) == MoveTokens(a) + MoveTokens(b)
  {
    if b != [] {
      var init := b[..|b| - 1];
      assert (a + b)[..|a + b| - 1] == a + init;
      MoveTokensAppend(a, init);
    } else {
      assert a + b == a;
    }
  }

  /** Filtering what is already filtered changes nothing. */
  lemma {:induction false} MoveTokensIdempotent(ts: seq<string>)
    requires NonEmpty(ts)
    ensures var r := MoveTokens(ts);
      NonEmpty(r) && MoveTokens(r) == r
  {
    if ts != [] {
      var init := ts[..|ts| - 1];
      var last := ts[|ts| - 1];
      MoveTokensIdempotent(init);
      var r0 := MoveTokens(init);
      if !IsDigit(last[0]) {
        assert MoveTokens(ts) == r0 + [last];
        assert (r0 + [last])[..|r0|] == r0;
        assert MoveTokens(r0 + [last]) == MoveTokens(r0) + [last];
      } else {
        assert r0 + [] == r0;
        assert MoveTokens(ts) == r0;
      }
    }
  }

  /** Tokens as a split at spaces yields them from a line without doubled spaces: non-empty and space-free. */
  predicate SpaceFree(ts: seq<string>)
  {
    forall i :: 0 <= i < |ts| ==> ts[i] != [] && ' ' !in ts[i]
  }

  /** A line written as its tokens joined by single spaces, opening with "1.", has the moves among those tokens. */
  lemma MovesOfJoin(ts: seq<string>)
    requires SpaceFree(ts) && ts != [] && |ts[0]| >= 2 && ts[0][..2] == "1."
    ensures MovesDefined(Join(ts, ' ')) && Moves(Join(ts, ' ')) == MoveTokens(ts)
  {
    var s := Join(ts, ' ');
    SplitJoin(ts, ' ');
    if |ts| > 1 {
      assert s == ts[0] + [' '] + Join(ts[1..], ' ');
    }
    assert s[..2] == ts[0][..2];
  }

  predicate IsMoveNumber(n: string) { n != [] && IsDigit(n[0]) && ' ' !in n }

  predicate IsMoveText(w: string) { w != [] && !IsDigit(w[0]) && ' ' !in w }

  /** The filter on three tokens, one step at a time. */
  lemma MoveTokensOfThree(n: string, w: string, b: string)
    requires n != [] && w != [] && b != []
    ensures MoveTokens([n, w, b]) == MoveTokens([n, w]) + (if IsDigit(b[0]) then [] else [b])
    ensures MoveTokens([n, w]) == MoveTokens([n]) + (if IsDigit(w[0]) then [] else [w])
    ensures MoveTokens([n]) == (if IsDigit(n[0]) then [] else [n])
  {
    assert [n, w, b][..2] == [n, w] && [n, w][..1] == [n] && [n][..0] == [];
  }

  /** A numbered pair of moves contributes both moves and drops the number. */
  lemma NumberedPair(n: string, w: string, b: string)
    requires IsMoveNumber(n) && IsMoveText(w) && IsMoveText(b)
    ensures SpaceFree([n, w, b]) && MoveTokens([n, w, b]) == [w, b]
  {
    MoveTokensOfThree(n, w, b);
  }

  /** Appending a numbered pair to space-free tokens adds two moves. */
  lemma AppendPair(a: seq<string>, n: string, w: string, b: string, k: nat)
    requires SpaceFree(a) && |MoveTokens(a)| == k
    requires IsMoveNumber(n) && IsMoveText(w) && IsMoveText(b)
    ensures SpaceFree(a + [n, w, b]) && |MoveTokens(a + [n, w, b])| == k + 2
  {
    NumberedPair(n, w, b);
    MoveTokensAppend(a, [n, w, b]);
  }

  /** The final move number, White's mating move and the result, which is dropped. */
  lemma LastMoveAndResult(n: string, w: string, result: string)
    requires IsMoveNumber(n) && IsMoveText(w) && IsMoveNumber(result)
    ensures SpaceFree([n, w, result]) && MoveTokens([n, w, result]) == [w]
  {
    MoveTokensOfThree(n, w, result);
  }

  /** "1. e4 1-0" has one move: the move number and the result drop out. */
  lemma ShortGameExample()
    ensures MovesDefined("1. e4 1-0") && Moves("1. e4 1-0") == ["e4"]
  {
    var ts := ["1.", "e4", "1-0"];
    LastMoveAndResult("1.", "e4", "1-0");
    MovesOfJoin(ts);
    assert Join(ts, ' ') == "1. e4 1-0" by {
      assert Join(ts, ' ') == "1." + " " + Join(["e4", "1-0"], ' ');
      assert Join(["e4", "1-0"], ' ') == "e4" + " " + Join(["1-0"], ' ');
    }
  }

  /** "1/2-1/2" has no moves, for it does not open with "1.". */
  lemma DrawResultExample()
    ensures MovesDefined("1/2-1/2") && Moves("1/2-1/2") == []
  {
    assert "1/2-1/2"[..2] == "1/";
  }

  /** The tokens of a thirteen-move game won by White: moves 1 to 6, 7 to 12, and the last move with the result. */
  const GameOpening :=
    ["1.", "e4", "e6"] + ["2.", "d4", "b6"] + ["3.", "a3", "Bb7"] + ["4.", "Nc3", "Nh6"] +
    ["5.", "Bxh6", "gxh6"] + ["6.", "Be2", "Qg5"]
  const GameMiddle :=
    ["7.", "Bg4", "h5"] + ["8.", "Nf3", "Qg6"] + ["9.", "Nh4", "Qg5"] + ["10.", "Bxh5", "Qxh4"] +
    ["11.", "Qf3", "Kd8"] + ["12.", "Qxf7", "Nc6"]
  const GameEnd := ["13.", "Qe8#", "1-0"]

  lemma GameOpeningMoves()
    ensures SpaceFree(GameOpening) && |MoveTokens(GameOpening)| == 12
  {
    var g := ["1.", "e4", "e6"];
    NumberedPair("1.", "e4", "e6");
    AppendPair(g, "2.", "d4", "b6", 2);
    g := g + ["2.", "d4", "b6"];
    AppendPair(g, "3.", "a3", "Bb7", 4);
    g := g + ["3.", "a3", "Bb7"];
    AppendPair(g, "4.", "Nc3", "Nh6", 6);
    g := g + ["4.", "Nc3", "Nh6"];
    AppendPair(g, "5.", "Bxh6", "gxh6", 8);
    g := g + ["5.", "Bxh6", "gxh6"];
    AppendPair(g, "6.", "Be2", "Qg5", 10);
  }

  lemma GameMiddleMoves()
    ensures SpaceFree(GameMiddle) && |MoveTokens(GameMiddle)| == 12
  {
    var g := ["7.", "Bg4", "h5"];
    NumberedPair("7.", "Bg4", "h5");
    AppendPair(g, "8.", "Nf3", "Qg6", 2);
    g := g + ["8.", "Nf3", "Qg6"];
    AppendPair(g, "9.", "Nh4", "Qg5", 4);
    g := g + ["9.", "Nh4", "Qg5"];
    AppendPair(g, "10.", "Bxh5", "Qxh4", 6);
    g := g + ["10.", "Bxh5", "Qxh4"];
    AppendPair(g, "11.", "Qf3", "Kd8", 8);
    g := g + ["11.", "Qf3", "Kd8"];
    AppendPair(g, "12.", "Qxf7", "Nc6", 10);
  }

  /** The thirteen-move game's movetext line yields 25 moves: twelve pairs and the mating move, without numbers or result. */
  lemma ThirteenMoveGame()
    ensures var ts := GameOpening + GameMiddle + GameEnd;
      MovesDefined(Join(ts, ' ')) && |Moves(Join(ts, ' '))| == 25
  {
    GameOpeningMoves();
    GameMiddleMoves();
    LastMoveAndResult("13.", "Qe8#", "1-0");
    MoveTokensAppend(GameOpening, GameMiddle);
    MoveTokensAppend(GameOpening + GameMiddle, GameEnd);
    var ts := GameOpening + GameMiddle + GameEnd;
    assert SpaceFree(ts);
    assert ts[0] == "1.";
    MovesOfJoin(ts);
  }

  // ---------------------------------------------------------------------------
  // Lines

  /** A line without the one carriage return that may end it. */
  function DropCR(l: string): (r: string)
    ensures r == l || (l == r + "\r")
  {
    if l != [] && l[|l| - 1] == '\r' then l[..|l| - 1] else l
  }

  /**
   * The lines a `bufio.Scanner` with `ScanLines` yields: the text cut at each "\n",
   * each line without one trailing "\r", and no line after a final "\n".
   */
  function ScanLines(s: string): (lines: seq<string>)
    ensures forall i :: 0 <= i < |lines| ==> '\n' !in lines[i]
  {
    var parts := Split(s, '\n');
    var whole := if parts[|parts| - 1] == [] then parts[..|parts| - 1] else parts;
    seq(|whole|, i requires 0 <= i < |whole| => DropCR(whole[i]))
  }

  /** Every line followed by "\n": the text that the lines of a file make up. */
  function Lines(ls: seq<string>): string
  {
    if ls == [] then "" else ls[0] + "\n" + Lines(ls[1..])
  }

  lemma {:induction false} LinesAppend(a: seq<string>, b: seq<string>)
    ensures Lines(a + b) == Lines(a) + Lines(b)
  {
    if a != [] {
      assert (a + b)[1..] == a[1..] + b;
      LinesAppend(a[1..], b);
    } else {
      assert a + b == b;
    }
  }

  lemma {:induction false} LinesAsJoin(ls: seq<string>)
    ensures Lines(ls) == Join(ls + [""], '\n')
  {
    if ls != [] {
      assert (ls + [""])[1..] == ls[1..] + [""];
      LinesAsJoin(ls[1..]);
    }
  }

  /** Writing lines out, each ended by "\n", and scanning the text gives the same lines back. */
  lemma ScanLinesOfLines(ls: seq<string>)
    requires forall i :: 0 <= i < |ls| ==> '\n' !in ls[i]
    requires forall i :: 0 <= i < |ls| ==> ls[i] == [] || ls[i][|ls[i]| - 1] != '\r'
    ensures ScanLines(Lines(ls)) == ls
  {
    var parts := ls + [""];
    assert forall i :: 0 <= i < |parts| ==> '\n' !in parts[i] by {
      forall i | 0 <= i < |parts| ensures '\n' !in parts[i] {
        if i < |ls| { assert parts[i] == ls[i]; }
      }
    }
    LinesAsJoin(ls);
    SplitJoin(parts, '\n');
    ScanLinesOfParts(Lines(ls), ls);
  }

  /** When the text splits into the lines and one empty remainder, those lines are what is scanned. */
  lemma ScanLinesOfParts(s: string, ls: seq<string>)
    requires Split(s, '\n') == ls + [""]
    requires forall i :: 0 <= i < |ls| ==> ls[i] == [] || ls[i][|ls[i]| - 1] != '\r'
    ensures ScanLines(s) == ls
  {
    assert (ls + [""])[..|ls|] == ls;
    var r := ScanLines(s);
    assert |r| == |ls|;
    forall i | 0 <= i < |ls| ensures r[i] == ls[i] {
      assert r[i] == DropCR(ls[i]);
    }
  }

  // ---------------------------------------------------------------------------
  // One game

  /** The lines on which `Parse` does not index out of range inside `extractMoves`. */
  predicate LineDefined(line: string)
  {
    line == [] || ExtractMeta(line).Some? || !IsDigit(line[0]) || MovesDefined(line)
  }

  predicate LinesDefined(ls: seq<string>)
  {
    forall i :: 0 <= i < |ls| ==> LineDefined(ls[i])
  }

  /** A line that `Parse` hands to `extractMoves`. */
  predicate IsMoveLine(line: string)
  {
    line != [] && ExtractMeta(line).None? && IsDigit(line[0])
  }

  /** A tag line with the given key. */
  predicate IsTag(line: string, key: string)
  {
    ExtractMeta(line).Some? && ExtractMeta(line).value.key == key
  }

  /** The effect of one line: a known tag sets its field, a move line replaces the moves, anything else is ignored. */
  function ApplyLine(r: Result, line: string): Result
    requires LineDefined(line)
  {
    if line == [] then r
    else match ExtractMeta(line)
      case Some(m) =>
        if m.key == "Event" then r.(event := m.value)
        else if m.key == "White" then r.(white := m.value)
        else if m.key == "Black" then r.(black := m.value)
        else if m.key == "WhiteElo" then r.(whiteElo := AsInt(m))
        else if m.key == "BlackElo" then r.(blackElo := AsInt(m))
        else r
      case None =>
        if IsDigit(line[0]) then r.(moves := Moves(line)) else r
  }

  /** Field by field, what one line does to the text fields: each tag sets only its own field, and nothing sets the site. */
  lemma ApplyLineText(r: Result, line: string)
    requires LineDefined(line)
    ensures var r' := ApplyLine(r, line);
      r'.site == r.site &&
      r'.event == (if IsTag(line, "Event") then ExtractMeta(line).value.value else r.event) &&
      r'.white == (if IsTag(line, "White") then ExtractMeta(line).value.value else r.white) &&
      r'.black == (if IsTag(line, "Black") then ExtractMeta(line).value.value else r.black)
  {
    assert "Event" != "White" && "Event" != "Black" && "White" != "Black" by {
      assert "Event"[0] == 'E' && "White"[0] == 'W' && "Black"[0] == 'B';
    }
  }

  /** What one line does to the ratings: only a rating tag sets its own rating. */
  lemma ApplyLineElo(r: Result, line: string)
    requires LineDefined(line)
    ensures var r' := ApplyLine(r, line);
      r'.whiteElo == (if IsTag(line, "WhiteElo") then AsInt(ExtractMeta(line).value) else r.whiteElo) &&
      r'.blackElo == (if IsTag(line, "BlackElo") then AsInt(ExtractMeta(line).value) else r.blackElo)
  {
  }

  /** What one line does to the moves: a move line replaces them, any other line leaves them. */
  lemma ApplyLineMoves(r: Result, line: string)
    requires LineDefined(line)
    ensures ApplyLine(r, line).moves == if IsMoveLine(line) then Moves(line) else r.moves
  {
  }

  /** The record after the given lines, applied in order to the zero record. */
  function ParseLines(ls: seq<string>): Result
    requires LinesDefined(ls)
  {
    if ls == [] then EmptyResult
    else ApplyLine(ParseLines(ls[..|ls| - 1]), ls[|ls| - 1])
  }

  /** `Parse`: each line of the game's text updates the record; the error result is always nil and not modelled. */
  method Parse(s: string) returns (r: Result)
    requires LinesDefined(ScanLines(s))
    ensures r == ParseLines(ScanLines(s))
  {
    var lines := ScanLines(s);
    r := EmptyResult;
    for i := 0 to |lines|
      invariant r == ParseLines(lines[..i])
    {
      assert lines[..i + 1][..i] == lines[..i];
      var line := lines[i];
      if |line| == 0 {
        continue;
      }
      var meta := ExtractMeta(line);
      if meta.Some? {
        var m := meta.value;
        if m.key == "Event" {
          r := r.(event := m.value);
        } else if m.key == "White" {
          r := r.(white := m.value);
        } else if m.key == "Black" {
          r := r.(black := m.value);
        } else if m.key == "WhiteElo" {
          r := r.(whiteElo := AsInt(m));
        } else if m.key == "BlackElo" {
          r := r.(blackElo := AsInt(m));
        }
        continue;
      }
      if IsDigit(line[0]) {
        var moves := ExtractMoves(line);
        r := r.(moves := moves);
      }
    }
    assert lines[..|lines|] == lines;
  }

  /** No tag ever sets the site. */
  lemma {:induction false} SiteNeverSet(ls: seq<string>)
    requires LinesDefined(ls)
    ensures ParseLines(ls).site == ""
  {
    if ls != [] {
      SiteNeverSet(ls[..|ls| - 1]);
      ApplyLineText(ParseLines(ls[..|ls| - 1]), ls[|ls| - 1]);
    }
  }

  /** The value of the last tag line with the given key, or "" when there is none. */
  function LastTagValue(ls: seq<string>, key: string): string
  {
    var k := LastIndex(ls, l => IsTag(l, key));
    if k < 0 then "" else ExtractMeta(ls[k]).value.value
  }

  /** The Event, White and Black fields hold the value of the last tag with that key. */
  lemma {:induction false} TextTagsLastWins(ls: seq<string>)
    requires LinesDefined(ls)
    ensures var r := ParseLines(ls);
      r.event == LastTagValue(ls, "Event") && r.white == LastTagValue(ls, "White") &&
      r.black == LastTagValue(ls, "Black")
  {
    if ls != [] {
      var init, line := ls[..|ls| - 1], ls[|ls| - 1];
      assert ls == init + [line];
      ApplyLineText(ParseLines(init), line);
      TextTagsLastWins(init);
      LastIndexSnoc(init, line, l => IsTag(l, "Event"));
      LastIndexSnoc(init, line, l => IsTag(l, "White"));
      LastIndexSnoc(init, line, l => IsTag(l, "Black"));
    }
  }

  /** The rating read from the last tag with the given key, or 0 when there is none. */
  function LastTagInt(ls: seq<string>, key: string): int
  {
    var k := LastIndex(ls, l => IsTag(l, key));
    if k < 0 then 0 else AsInt(ExtractMeta(ls[k]).value)
  }

  /** WhiteElo and BlackElo hold the integer read from the last tag with that key. */
  lemma {:induction false} EloTagsLastWin(ls: seq<string>)
    requires LinesDefined(ls)
    ensures var r := ParseLines(ls);
      r.whiteElo == LastTagInt(ls, "WhiteElo") && r.blackElo == LastTagInt(ls, "BlackElo")
  {
    if ls != [] {
      var init, line := ls[..|ls| - 1], ls[|ls| - 1];
      assert ls == init + [line];
      ApplyLineElo(ParseLines(init), line);
      EloTagsLastWin(init);
      LastIndexSnoc(init, line, l => IsTag(l, "WhiteElo"));
      LastIndexSnoc(init, line, l => IsTag(l, "BlackElo"));
    }
  }

  /** The moves are those of the last move line alone (assigned, not accumulated), or none. */
  lemma {:induction false} MovesLastWins(ls: seq<string>)
    requires LinesDefined(ls)
    ensures var k := LastIndex(ls, IsMoveLine);
      ParseLines(ls).moves == if k < 0 then [] else Moves(ls[k])
  {
    if ls != [] {
      var init, line := ls[..|ls| - 1], ls[|ls| - 1];
      assert ls == init + [line];
      ApplyLineMoves(ParseLines(init), line);
      MovesLastWins(init);
      LastIndexSnoc(init, line, IsMoveLine);
    }
  }

  // ---------------------------------------------------------------------------
  // Cutting a stream into games

  predicate IsHeader(l: string) { |l| > 0 && l[0] == '[' }

  /** The state of the splitter: games already emitted, the text of the current one, and whether the last line was a header. */
  datatype Splitter = Splitter(done: seq<string>, buf: string, inPgn: bool)

  const SplitStart := Splitter([], "", true)

  /** One line: a header after a non-header line closes the current game; the line then joins the buffer. */
  function Feed(st: Splitter, l: string): Splitter
  {
    var header := IsHeader(l);
    var st1 := if !st.inPgn && header then Splitter(st.done + [st.buf], "", st.inPgn) else st;
    Splitter(st1.done, st1.buf + l + "\n", header)
  }

  function Run(ls: seq<string>): Splitter
  {
    if ls == [] then SplitStart else Feed(Run(ls[..|ls| - 1]), ls[|ls| - 1])
  }

  /** The games cut from the lines: everything emitted, then the final buffer. */
  function Games(ls: seq<string>): seq<string>
  {
    Run(ls).done + [Run(ls).buf]
  }

  /** `Split`: the scanned lines of the text, grouped into games as a sequence instead of a channel. */
  method SplitGames(text: string) returns (games: seq<string>)
    ensures games == Games(ScanLines(text))
  {
    var lines := ScanLines(text);
    var inPgn := true;
    var buf := "";
    games := [];
    for i := 0 to |lines|
      invariant Run(lines[..i]) == Splitter(games, buf, inPgn)
    {
      assert lines[..i + 1][..i] == lines[..i];
      var l := lines[i];
      var header := |l| > 0 && l[0] == '[';
      if !inPgn && header {
        games := games + [buf];
        buf := "";
      }
      buf := buf + l + "\n";
      inPgn := header;
    }
    assert lines[..|lines|] == lines;
    games := games + [buf];
  }

  function Concat(ss: seq<string>): string
  {
    if ss == [] then "" else ss[0] + Concat(ss[1..])
  }

  lemma {:induction false} ConcatSnoc(ss: seq<string>, s: string)
    ensures Concat(ss + [s]) == Concat(ss) + s
  {
    if ss != [] {
      assert (ss + [s])[1..] == ss[1..] + [s];
      ConcatSnoc(ss[1..], s);
    }
  }

  /** Feeding a line adds exactly that line and "\n" to the text held, emitted or buffered. */
  lemma FeedKeepsText(st: Splitter, l: string)
    ensures Concat(Feed(st, l).done) + Feed(st, l).buf == Concat(st.done) + st.buf + l + "\n"
    ensures Feed(st, l).inPgn == IsHeader(l)
  {
    if !st.inPgn && IsHeader(l) {
      ConcatSnoc(st.done, st.buf);
    }
  }

  /** Emitted text plus the buffer is all the lines so far, and the flag tells whether the last line was a header. */
  lemma {:induction false} RunKeepsText(ls: seq<string>)
    ensures Concat(Run(ls).done) + Run(ls).buf == Lines(ls)
    ensures Run(ls).inPgn == (ls == [] || IsHeader(ls[|ls| - 1]))
  {
    if ls != [] {
      var init, l := ls[..|ls| - 1], ls[|ls| - 1];
      RunKeepsText(init);
      FeedKeepsText(Run(init), l);
      LinesAppend(init, [l]);
      assert ls == init + [l];
      assert Lines([l]) == l + "\n";
    }
  }

  /** Nothing is lost or reordered: the games, concatenated, are every line followed by "\n". */
  lemma GamesLoseNothing(ls: seq<string>)
    ensures Concat(Games(ls)) == Lines(ls)
  {
    RunKeepsText(ls);
    ConcatSnoc(Run(ls).done, Run(ls).buf);
  }

  /** The number of places where a header line follows a non-header line. */
  function Transitions(ls: seq<string>): nat
  {
    if |ls| < 2 then 0
    else Transitions(ls[..|ls| - 1]) + (if IsHeader(ls[|ls| - 1]) && !IsHeader(ls[|ls| - 2]) then 1 else 0)
  }

  /** Every emitted game is non-empty, and each one after the first, like a non-empty buffer after one, opens with a header. */
  lemma {:induction false} RunShape(ls: seq<string>)
    ensures |Run(ls).done| == Transitions(ls)
    ensures forall j :: 0 <= j < |Run(ls).done| ==> Run(ls).done[j] != []
    ensures forall j :: 1 <= j < |Run(ls).done| ==> Run(ls).done[j][0] == '['
    ensures |Run(ls).done| >= 1 ==> Run(ls).buf != [] && Run(ls).buf[0] == '['
    ensures ls != [] ==> Run(ls).buf != []
  {
    if ls != [] {
      var init, l := ls[..|ls| - 1], ls[|ls| - 1];
      RunShape(init);
      RunKeepsText(init);
      if |init| >= 1 {
        assert init[|init| - 1] == ls[|ls| - 2];
      }
    }
  }

  /** One game per header that follows a non-header line, plus one; the later games open with a header. */
  lemma GamesShape(ls: seq<string>)
    ensures |Games(ls)| == 1 + Transitions(ls)
    ensures forall j :: 1 <= j < |Games(ls)| ==> Games(ls)[j] != [] && Games(ls)[j][0] == '['
    ensures ls != [] ==> forall j :: 0 <= j < |Games(ls)| ==> Games(ls)[j] != []
  {
    RunShape(ls);
  }

  /** The indices where a header line follows a non-header line: the lines at which a game is closed. */
  function Cuts(ls: seq<string>): (c: seq<nat>)
    ensures forall i :: 0 <= i < |c| ==> 0 < c[i] < |ls|
    ensures forall i, j :: 0 <= i < j < |c| ==> c[i] < c[j]
  {
    if |ls| < 2 then []
    else Cuts(ls[..|ls| - 1]) + (if IsHeader(ls[|ls| - 1]) && !IsHeader(ls[|ls| - 2]) then [|ls| - 1] else [])
  }

  /** The cuts are exactly the lines that are headers right after a non-header line. */
  lemma {:induction false} CutsMeaning(ls: seq<string>, k: int)
    requires 0 < k < |ls|
    ensures k in Cuts(ls) <==> IsHeader(ls[k]) && !IsHeader(ls[k - 1])
  {
    var n := |ls|;
    var init := ls[..n - 1];
    if k < n - 1 {
      CutsMeaning(init, k);
      assert init[k] == ls[k] && init[k - 1] == ls[k - 1];
    } else {
      assert k !in Cuts(init);
    }
  }

  /** Adding a line keeps the starts so far and adds one exactly when that line is a cut. */
  lemma StartsSnoc(ls: seq<string>)
    requires ls != []
    ensures var init, n := ls[..|ls| - 1], |ls|;
      var cut := n >= 2 && IsHeader(ls[n - 1]) && !IsHeader(ls[n - 2]);
      Starts(ls) == Starts(init) + if cut then [n - 1] else []
  {
    var init, n := ls[..|ls| - 1], |ls|;
    if n >= 2 {
      assert Cuts(ls) == Cuts(init) + (if IsHeader(ls[n - 1]) && !IsHeader(ls[n - 2]) then [n - 1] else []);
    }
  }

  /** Where each game starts: the first line, then every cut. */
  function Starts(ls: seq<string>): (s: seq<nat>)
    ensures |s| == |Cuts(ls)| + 1 && s[0] == 0
    ensures forall i :: 0 <= i < |s| ==> s[i] <= |ls|
    ensures forall i :: 0 < i < |s| ==> s[i - 1] < s[i]
  {
    [0] + Cuts(ls)
  }

  /** The text of the lines from the j-th start up to the next start, or to the end. */
  function Segment(ls: seq<string>, j: nat): string
    requires j < |Starts(ls)|
  {
    var s := Starts(ls);
    Lines(ls[s[j]..if j + 1 < |s| then s[j + 1] else |ls|])
  }

  /**
   * The games are exactly the runs of lines between cuts: each game but the last ends
   * where a header line follows a non-header line, and the last runs to the end.
   */
  lemma {:induction false} GamesAtCuts(ls: seq<string>)
    ensures |Games(ls)| == |Starts(ls)|
    ensures forall j :: 0 <= j < |Games(ls)| ==> Games(ls)[j] == Segment(ls, j)
  {
    if ls == [] {
      assert Segment(ls, 0) == Lines([]);
    } else {
      GamesAtCuts(ls[..|ls| - 1]);
      GamesStep(ls);
    }
  }

  /** The games cut from the lines are their segments, one per start. */
  predicate GamesMatch(ls: seq<string>)
  {
    |Games(ls)| == |Starts(ls)| && forall j :: 0 <= j < |Games(ls)| ==> Games(ls)[j] == Segment(ls, j)
  }

  /** One more line keeps the games equal to the segments. */
  lemma GamesStep(ls: seq<string>)
    requires ls != [] && GamesMatch(ls[..|ls| - 1])
    ensures GamesMatch(ls)
  {
    var n := |ls|;
    var init, l := ls[..n - 1], ls[n - 1];
    assert ls == init + [l];
    var st := Run(init);
    var last := |st.done|;
    assert Games(init)[last] == st.buf == Segment(init, last);
    RunKeepsText(init);
    if !st.inPgn && IsHeader(l) {
      assert n >= 2 && init[n - 2] == ls[n - 2];
      FeedCloses(st, l, init);
      SegmentsAtCut(ls);
      GamesPrefix(ls, last);
    } else {
      FeedExtends(st, l, init);
      SegmentsWithoutCut(ls);
      GamesPrefix(ls, last);
    }
  }

  /** The segments closed before the last line are unchanged by it. */
  lemma GamesPrefix(ls: seq<string>, last: nat)
    requires ls != [] && last + 1 == |Starts(ls[..|ls| - 1])|
    ensures forall j :: 0 <= j < last ==> Segment(ls, j) == Segment(ls[..|ls| - 1], j)
  {
    forall j | 0 <= j < last
      ensures Segment(ls, j) == Segment(ls[..|ls| - 1], j)
    {
      SegmentOfPrefix(ls, j);
    }
  }

  /** A header after a non-header line closes the current game and opens one with that line. */
  lemma FeedCloses(st: Splitter, l: string, init: seq<string>)
    requires st == Run(init) && !st.inPgn && IsHeader(l)
    ensures Games(init + [l]) == st.done + [st.buf] + [l + "\n"]
  {
    var ls := init + [l];
    assert ls[..|ls| - 1] == init;
    var next := Feed(st, l);
    assert Run(ls) == next;
    assert next.done == st.done + [st.buf] && next.buf == l + "\n";
    assert Games(ls) == next.done + [next.buf];
  }

  /** Any other line joins the current game. */
  lemma FeedExtends(st: Splitter, l: string, init: seq<string>)
    requires st == Run(init) && !(!st.inPgn && IsHeader(l))
    ensures Games(init + [l]) == st.done + [st.buf + l + "\n"]
  {
    var ls := init + [l];
    assert ls[..|ls| - 1] == init;
    var next := Feed(st, l);
    assert Run(ls) == next;
    assert next.done == st.done && next.buf == st.buf + l + "\n";
    assert Games(ls) == next.done + [next.buf];
  }

  /** When the last line is a cut, it forms a segment of its own after the last segment of the lines before it. */
  lemma SegmentsAtCut(ls: seq<string>)
    requires |ls| >= 2 && IsHeader(ls[|ls| - 1]) && !IsHeader(ls[|ls| - 2])
    ensures var init := ls[..|ls| - 1];
      var last := |Starts(init)| - 1;
      |Starts(ls)| == last + 2 && Segment(ls, last) == Segment(init, last) && Segment(ls, last + 1) == ls[|ls| - 1] + "\n"
  {
    var n := |ls|;
    var init, l := ls[..n - 1], ls[n - 1];
    StartsSnoc(ls);
    assert Starts(ls) == Starts(init) + [n - 1];
    var last := |Starts(init)| - 1;
    var a := Starts(init)[last];
    assert Segment(init, last) == Lines(init[a..|init|]);
    assert ls[a..n - 1] == init[a..|init|];
    assert Segment(ls, last) == Lines(ls[a..n - 1]);
    assert ls[n - 1..n] == [l];
    assert Lines([l]) == l + "\n";
  }

  /** When the last line is not a cut, it extends the last segment of the lines before it. */
  lemma SegmentsWithoutCut(ls: seq<string>)
    requires ls != [] && !(|ls| >= 2 && IsHeader(ls[|ls| - 1]) && !IsHeader(ls[|ls| - 2]))
    ensures var init := ls[..|ls| - 1];
      var last := |Starts(init)| - 1;
      |Starts(ls)| == last + 1 && Segment(ls, last) == Segment(init, last) + ls[|ls| - 1] + "\n"
  {
    var n := |ls|;
    var init, l := ls[..n - 1], ls[n - 1];
    StartsSnoc(ls);
    assert Starts(ls) == Starts(init);
    var last := |Starts(init)| - 1;
    var a := Starts(init)[last];
    assert Segment(init, last) == Lines(init[a..|init|]);
    assert ls[a..n] == init[a..|init|] + [l];
    LinesAppend(init[a..|init|], [l]);
    assert Lines([l]) == l + "\n";
  }

  /** A segment closed before the last line is the same segment of the lines without it. */
  lemma SegmentOfPrefix(ls: seq<string>, j: nat)
    requires ls != [] && j + 1 < |Starts(ls[..|ls| - 1])|
    ensures j + 1 < |Starts(ls)|
    ensures Segment(ls, j) == Segment(ls[..|ls| - 1], j)
  {
    var n := |ls|;
    var init := ls[..n - 1];
    StartsSnoc(ls);
    var s := Starts(init);
    assert Starts(ls)[j] == s[j] && Starts(ls)[j + 1] == s[j + 1];
    assert s[j + 1] <= |init|;
    var a, b := s[j], s[j + 1];
    assert forall i :: a <= i < b ==> ls[i] == init[i];
    assert ls[a..b] == init[a..b];
  }

  /** Empty input gives one empty game, and a file that opens with headers does not emit an empty game first. */
  lemma GamesEdges(ls: seq<string>)
    ensures Games([]) == [""]
    ensures ls != [] && IsHeader(ls[0]) ==> Games(ls)[0] != [] && Games(ls)[0][0] == '['
  {
    if ls != [] && IsHeader(ls[0]) {
      FirstGameOpensWithHeader(ls);
    }
  }

  /** The first game starts with the first line. */
  lemma {:induction false} FirstGameOpensWithHeader(ls: seq<string>)
    requires ls != [] && IsHeader(ls[0])
    ensures Games(ls)[0] != [] && Games(ls)[0][0] == '['
    ensures Run(ls).done != [] ==> Run(ls).done[0] != [] && Run(ls).done[0][0] == '['
    ensures Run(ls).done == [] ==> Run(ls).buf != [] && Run(ls).buf[0] == '['
  {
    var init := ls[..|ls| - 1];
    if |ls| > 1 {
      assert init[0] == ls[0];
      FirstGameOpensWithHeader(init);
      var st := Run(init);
      assert Run(ls) == Feed(st, ls[|ls| - 1]);
      if st.done == [] {
        assert (st.buf + ls[|ls| - 1] + "\n")[0] == st.buf[0];
      }
    } else {
      assert init == [];
      assert Run(ls).buf == ls[0] + "\n";
    }
  }
}
