/**
 * The best-score tracker: a runner holds named analyzers, scores every game with
 * each of them and keeps, per analyzer, the best score seen and the site of the
 * game that first reached it.
 */
module Query {
  import Text
  import Chess
  import Pgn

  type Int64 = x: int | -0x8000_0000_0000_0000 <= x <= 0x7fff_ffff_ffff_ffff

  /** When a query is meant to run; the runner does not consult it. */
  datatype Cadence = Once | EveryPly | AtEnd

  /** What an analyzer is shown: the game's tag record, the last move and the current position. */
  datatype Payload = Payload(meta: Pgn.Result, lastMove: Chess.Move, currentPosition: Chess.Board)

  /** An analyzer scores a payload; higher is more interesting. */
  type Analyzer = Payload -> Int64

  /**
   * The payload for a game: only its record is filled in; the move and the position
   * keep Go's zero values, four zeros with no promotion and empty cells with Black to move.
   */
  function NewPayload(g: Pgn.Result): (p: Payload)
    ensures p.meta == g
    ensures p.lastMove.fromCol == p.lastMove.toCol == p.lastMove.fromRow == p.lastMove.toRow == 0
    ensures p.lastMove.promote == Chess.Empty
    ensures !p.currentPosition.whiteMove
    ensures forall i :: 0 <= i < |p.currentPosition.cells| ==>
      p.currentPosition.cells[i].kind == Chess.Empty && p.currentPosition.cells[i].color == Chess.Black
  {
    Payload(g, Chess.Move(0, 0, 0, 0, Chess.Empty), Chess.Board(false, seq(64, _ => Chess.NoPiece)))
  }

  /** The payload carries the game and nothing else: payloads tell games apart exactly, and all share one move and one position. */
  lemma NewPayloadOnlyGame(g: Pgn.Result, h: Pgn.Result)
    ensures NewPayload(g) == NewPayload(h) <==> g == h
    ensures NewPayload(g).lastMove == NewPayload(h).lastMove
    ensures NewPayload(g).currentPosition == NewPayload(h).currentPosition
  {
  }

  /** One registered analyzer with its running best score and the site where it was reached. */
  datatype AnalyzerMeta = AnalyzerMeta(name: string, cad: Cadence, score: Int64, site: string, analyzer: Analyzer)

  /** The score an analyzer gives a game. */
  function Score(a: AnalyzerMeta, g: Pgn.Result): Int64
  {
    a.analyzer(NewPayload(g))
  }

  function Max(x: int, y: int): int { if x >= y then x else y }

  /**
   * Scoring one game: the new best is the larger of the old best and the game's score; the
   * site moves to the game's only on strict improvement, and a tie or worse changes nothing.
   */
  function Update(a: AnalyzerMeta, g: Pgn.Result): (u: AnalyzerMeta)
    ensures u.score == Max(a.score, Score(a, g))
    ensures u.site == g.site || u.site == a.site
    ensures Score(a, g) <= a.score ==> u == a
    ensures Score(a, g) > a.score ==> u.site == g.site
    ensures u.name == a.name && u.cad == a.cad && u.analyzer == a.analyzer
  {
    var score := Score(a, g);
    if score > a.score then a.(score := score, site := g.site) else a
  }

  /** Every analyzer of the list, each updated with the game. */
  function AnalyzeAll(entries: seq<AnalyzerMeta>, g: Pgn.Result): (r: seq<AnalyzerMeta>)
    ensures |r| == |entries|
  {
    seq(|entries|, i requires 0 <= i < |entries| => Update(entries[i], g))
  }

  class Runner {
    var analyzers: seq<AnalyzerMeta>

    /** `NewRunner`: no analyzers yet. */
    constructor ()
      ensures analyzers == []
    {
      analyzers := [];
    }

    /** Registers an analyzer at the end, with the lowest int64 as its best score and no site. */
    method Add(a: Analyzer, name: string, cad: Cadence)
      modifies this
      ensures analyzers == old(analyzers) + [AnalyzerMeta(name, cad, Text.MinInt, "", a)]
    {
      analyzers := analyzers + [AnalyzerMeta(name, cad, Text.MinInt, "", a)];
    }

    /** Scores the game with every analyzer, whatever its cadence, updating each entry in place. */
    method Analyze(g: Pgn.Result)
      modifies this
      ensures analyzers == AnalyzeAll(old(analyzers), g)
    {
      ghost var before := analyzers;
      for i := 0 to |analyzers|
        invariant |analyzers| == |before|
        invariant forall j :: 0 <= j < i ==> analyzers[j] == Update(before[j], g)
        invariant forall j :: i <= j < |before| ==> analyzers[j] == before[j]
      {
        var a := analyzers[i];
        var payload := NewPayload(g);
        var score := a.analyzer(payload);
        if score > a.score {
          a := a.(score := score, site := g.site);
        }
        analyzers := analyzers[i := a];
      }
    }
  }

  /** Analyzing keeps the number, the order, the names, the cadences and the analyzers of the entries. */
  lemma AnalyzeAllKeepsEntries(entries: seq<AnalyzerMeta>, g: Pgn.Result)
    ensures var r := AnalyzeAll(entries, g);
      |r| == |entries| &&
      forall i :: 0 <= i < |entries| ==>
        r[i].name == entries[i].name && r[i].cad == entries[i].cad && r[i].analyzer == entries[i].analyzer &&
        r[i].score == Max(entries[i].score, Score(entries[i], g))
  {
  }

  // ---------------------------------------------------------------------------
  // Over a sequence of games

  /** One analyzer after the games, scored in order. */
  function Replay(a: AnalyzerMeta, gs: seq<Pgn.Result>): AnalyzerMeta
  {
    if gs == [] then a else Update(Replay(a, gs[..|gs| - 1]), gs[|gs| - 1])
  }

  /** The whole list after the games, one `Analyze` call per game. */
  function ReplayAll(entries: seq<AnalyzerMeta>, gs: seq<Pgn.Result>): seq<AnalyzerMeta>
  {
    if gs == [] then entries else AnalyzeAll(ReplayAll(entries, gs[..|gs| - 1]), gs[|gs| - 1])
  }

  /** Each entry of the list evolves on its own, as if it were the only analyzer. */
  lemma {:induction false} ReplayAllPointwise(entries: seq<AnalyzerMeta>, gs: seq<Pgn.Result>)
    ensures |ReplayAll(entries, gs)| == |entries|
    ensures forall i :: 0 <= i < |entries| ==> ReplayAll(entries, gs)[i] == Replay(entries[i], gs)
  {
    if gs != [] {
      ReplayAllPointwise(entries, gs[..|gs| - 1]);
    }
  }

  /** The best of the initial score and the scores of the games. */
  function Best(a: AnalyzerMeta, gs: seq<Pgn.Result>): int
  {
    if gs == [] then a.score else Max(Best(a, gs[..|gs| - 1]), Score(a, gs[|gs| - 1]))
  }

  /** After the games, the score is the best of the initial score and every game's score, and the rest of the entry is kept. */
  lemma {:induction false} ReplayBest(a: AnalyzerMeta, gs: seq<Pgn.Result>)
    ensures var r := Replay(a, gs);
      r.score == Best(a, gs) && r.name == a.name && r.cad == a.cad && r.analyzer == a.analyzer
  {
    if gs != [] {
      ReplayBest(a, gs[..|gs| - 1]);
    }
  }

  /** The best never drops below the initial score or any game's score, and is one of them. */
  lemma {:induction false} BestBounds(a: AnalyzerMeta, gs: seq<Pgn.Result>)
    ensures Best(a, gs) >= a.score
    ensures forall k :: 0 <= k < |gs| ==> Best(a, gs) >= Score(a, gs[k])
    ensures Best(a, gs) == a.score || exists k :: 0 <= k < |gs| && Best(a, gs) == Score(a, gs[k])
  {
    if gs != [] {
      var init := gs[..|gs| - 1];
      BestBounds(a, init);
      forall k | 0 <= k < |init| ensures init[k] == gs[k] { }
      if Best(a, gs) != a.score && Best(a, gs) != Score(a, gs[|gs| - 1]) {
        var k :| 0 <= k < |init| && Best(a, init) == Score(a, init[k]);
        assert Best(a, gs) == Score(a, gs[k]);
      }
    }
  }

  /** Scores never decrease: more games give a best at least as high. */
  lemma {:induction false} ReplayMonotone(a: AnalyzerMeta, gs: seq<Pgn.Result>, more: seq<Pgn.Result>)
    ensures Replay(a, gs + more).score >= Replay(a, gs).score
  {
    if more == [] {
      assert gs + more == gs;
    } else {
      var init := more[..|more| - 1];
      assert (gs + more)[..|gs + more| - 1] == gs + init;
      ReplayMonotone(a, gs, init);
    }
  }

  /** Index of the first game whose score exceeds the initial score and equals the best; `|gs|` when no game beats it. */
  function FirstBest(a: AnalyzerMeta, gs: seq<Pgn.Result>, best: int): (k: nat)
    ensures k <= |gs|
    ensures k < |gs| ==> Score(a, gs[k]) == best && best > a.score
    ensures forall j :: 0 <= j < k ==> !(Score(a, gs[j]) == best && best > a.score)
  {
    if gs == [] then 0
    else if Score(a, gs[0]) == best && best > a.score then 0
    else 1 + FirstBest(a, gs[1..], best)
  }

  /**
   * The site is that of the first game that reached the final best score, provided it
   * beat the initial score; when no game beat it the site is the initial one. Later
   * games that only tie the best do not move it.
   */
  lemma {:induction false} ReplaySite(a: AnalyzerMeta, gs: seq<Pgn.Result>)
    ensures var k := FirstBest(a, gs, Best(a, gs));
      Replay(a, gs).site == if k < |gs| then gs[k].site else a.site
  {
    if gs != [] {
      var init, g := gs[..|gs| - 1], gs[|gs| - 1];
      assert gs == init + [g];
      ReplaySite(a, init);
      ReplayBest(a, init);
      if Score(a, g) > Best(a, init) {
        FirstBestStrict(a, init, g);
      } else {
        FirstBestKept(a, init, g);
      }
    }
  }

  /** A game strictly better than all before it is the first to reach the new best. */
  lemma FirstBestStrict(a: AnalyzerMeta, init: seq<Pgn.Result>, g: Pgn.Result)
    requires Score(a, g) > Best(a, init)
    ensures Best(a, init + [g]) == Score(a, g)
    ensures FirstBest(a, init + [g], Score(a, g)) == |init|
  {
    var gs := init + [g];
    assert gs[..|gs| - 1] == init && gs[|init|] == g;
    assert Best(a, gs) == Max(Best(a, init), Score(a, g));
    BestBounds(a, init);
    assert Score(a, g) > a.score;
    forall j | 0 <= j < |init| ensures Score(a, gs[j]) != Score(a, g) {
      assert gs[j] == init[j];
    }
    FirstBestAt(a, gs, Score(a, g), |init|);
  }

  /** A game that does not beat the best leaves the best, and the first game reaching it, where they were. */
  lemma FirstBestKept(a: AnalyzerMeta, init: seq<Pgn.Result>, g: Pgn.Result)
    requires Score(a, g) <= Best(a, init)
    ensures Best(a, init + [g]) == Best(a, init)
    ensures var b, k0 := Best(a, init), FirstBest(a, init, Best(a, init));
      var k := FirstBest(a, init + [g], b);
      if k0 < |init| then k == k0 && (init + [g])[k] == init[k0] else k == |init| + 1
  {
    var gs := init + [g];
    assert gs[..|gs| - 1] == init;
    var b := Best(a, init);
    BestBounds(a, init);
    FirstBestPrefix(a, init, g, b);
  }

  /** The first index with the wanted score, when all earlier ones miss it. */
  lemma {:induction false} FirstBestAt(a: AnalyzerMeta, gs: seq<Pgn.Result>, best: int, k: nat)
    requires k < |gs| && Score(a, gs[k]) == best && best > a.score
    requires forall j :: 0 <= j < k ==> Score(a, gs[j]) != best
    ensures FirstBest(a, gs, best) == k
  {
    if k > 0 {
      FirstBestAt(a, gs[1..], best, k - 1);
    }
  }

  /** Appending a game does not change the first index found in the games before it, if there is one. */
  lemma {:induction false} FirstBestPrefix(a: AnalyzerMeta, init: seq<Pgn.Result>, g: Pgn.Result, best: int)
    ensures var k := FirstBest(a, init, best);
      FirstBest(a, init + [g], best) == (if k < |init| then k else if Score(a, g) == best && best > a.score then |init| else |init| + 1)
  {
    if init != [] {
      assert (init + [g])[1..] == init[1..] + [g];
      FirstBestPrefix(a, init[1..], g, best);
    } else {
      assert ([g])[1..] == [];
    }
  }
}
