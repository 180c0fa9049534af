/** The tuner's games and matches (gui.py): one engine-against-engine game scored from White's
 *  side, and a match that alternates colours and scores it for one side. The rules of chess
 *  (legality, the end of the game, its winner) and the engines' replies are parameters. */
module Matches {
  import opened Wrappers
  import opened Text

  /** The safety limit on the length of a game, opening included. */
  const MAX_PLIES: nat := 400

  /** What the chess library answers about the game reached by a list of moves from the start:
   *  whether a move is legal there, whether the game is over (draws claimable), and its winner,
   *  `Some(true)` for White, `None` for a draw or a game without an outcome. */
  datatype Referee = Referee(
    legal: (seq<string>, string) -> bool,
    over: seq<string> -> bool,
    winner: seq<string> -> Option<bool>)

  /** The engines as the game loop sees them: the `bestmove` line the side to move prints before
   *  the deadline (`None` if none does), and whether the tuning stop flag is up. */
  datatype Engines = Engines(
    bestmoveLine: seq<string> -> Option<string>,
    stopped: seq<string> -> bool)

  /** The move of a `bestmove` line: its second word, or `0000` when it has none. */
  function BestMoveOf(line: string): (bm: string)
    ensures |bm| > 0
  {
    var parts := Words(line, PY_SPACE);
    if |parts| >= 2 then parts[1] else "0000"
  }

  /** The move an engine prints is the move the loop reads, whatever follows it. */
  lemma BestMoveRead(m: string, rest: seq<string>)
    requires |m| > 0 && forall k :: 0 <= k < |m| ==> m[k] !in PY_SPACE
    requires forall i :: 0 <= i < |rest| ==> |rest[i]| > 0 && forall k :: 0 <= k < |rest[i]| ==> rest[i][k] !in PY_SPACE
    ensures BestMoveOf(Join(["bestmove", m] + rest, " ")) == m
  {
    var words := ["bestmove", m] + rest;
    assert forall k :: 0 <= k < |"bestmove"| ==> "bestmove"[k] !in PY_SPACE;
    forall i | 0 <= i < |words|
      ensures |words[i]| > 0 && forall k :: 0 <= k < |words[i]| ==> words[i][k] !in PY_SPACE
    {
      if i >= 2 {
        assert words[i] == rest[i - 2];
      }
    }
    WordsJoin(words, PY_SPACE);
  }

  /** The opening actually played: the moves of `rest` appended to `done` while each is legal. */
  function OpeningFrom(legal: (seq<string>, string) -> bool, done: seq<string>, rest: seq<string>): (r: seq<string>)
    ensures done <= r && |r| <= |done| + |rest| && r == done + rest[..|r| - |done|]
    ensures forall i :: |done| <= i < |r| ==> legal(r[..i], r[i])
    ensures |r| < |done| + |rest| ==> !legal(r, rest[|r| - |done|])
    decreases |rest|
  {
    if |rest| == 0 || !legal(done, rest[0]) then
      assert rest[..0] == [];
      done
    else
      var r := OpeningFrom(legal, done + [rest[0]], rest[1..]);
      assert rest[..|r| - |done|] == [rest[0]] + rest[1..][..|r| - |done| - 1];
      assert r[..|done|] == done;
      r
  }

  /** Applying the opening line: its moves in order, up to the first illegal one. */
  method ApplyOpening(legal: (seq<string>, string) -> bool, opening: seq<string>) returns (applied: seq<string>)
    ensures applied == OpeningFrom(legal, [], opening)
  {
    applied := [];
    var i := 0;
    while i < |opening|
      invariant 0 <= i <= |opening| && applied == opening[..i]
      invariant OpeningFrom(legal, [], opening) == OpeningFrom(legal, applied, opening[i..])
    {
      if !legal(applied, opening[i]) {
        break;
      }
      assert opening[i..][1..] == opening[i + 1..];
      applied := applied + [opening[i]];
      assert opening[..i + 1] == applied;
      i := i + 1;
    }
  }

  /** The score of a finished game from White's side: 1 for a White win, 0 for a Black win, 0.5
   *  for a draw and for a game without an outcome. */
  function Outcome(referee: Referee, moves: seq<string>): (r: real)
    ensures r == 0.0 || r == 1.0 / 2.0 || r == 1.0
    ensures r == 1.0 <==> referee.winner(moves) == Some(true)
    ensures r == 0.0 <==> referee.winner(moves) == Some(false)
  {
    match referee.winner(moves)
    case None => 1.0 / 2.0
    case Some(white) => if white then 1.0 else 0.0
  }

  /** The score of the game continued from `moves` (White moves when their number is even). */
  function GameFrom(referee: Referee, engines: Engines, moves: seq<string>): (r: real)
    ensures r == 0.0 || r == 1.0 / 2.0 || r == 1.0
    decreases MAX_PLIES - |moves|
  {
    if referee.over(moves) || |moves| >= MAX_PLIES then Outcome(referee, moves)
    else if engines.stopped(moves) then 1.0 / 2.0
    else
      match engines.bestmoveLine(moves)
      case None => Outcome(referee, moves)
      case Some(line) =>
        var bm := BestMoveOf(line);
        if bm == "0000" then Outcome(referee, moves)
        else if !referee.legal(moves, bm) then (if |moves| % 2 == 0 then 0.0 else 1.0)
        else GameFrom(referee, engines, moves + [bm])
  }

  /** `_play_one_game`: the opening, then the engines in turn until the game ends, the ply limit
   *  is reached, an engine gives no move, or the stop flag goes up. */
  method PlayOneGame(referee: Referee, engines: Engines, opening: string) returns (r: real)
    ensures r == GameFrom(referee, engines, OpeningFrom(referee.legal, [], Words(opening, PY_SPACE)))
  {
    var moves := ApplyOpening(referee.legal, Words(opening, PY_SPACE));
    ghost var start := moves;
    while !referee.over(moves) && |moves| < MAX_PLIES
      invariant GameFrom(referee, engines, start) == GameFrom(referee, engines, moves)
      decreases MAX_PLIES - |moves|
    {
      if engines.stopped(moves) {
        return 1.0 / 2.0;
      }
      var whiteToMove := |moves| % 2 == 0;
      var line := engines.bestmoveLine(moves);
      if line.None? {
        break;
      }
      var bm := BestMoveOf(line.value);
      if bm == "0000" {
        break;
      }
      if !referee.legal(moves, bm) {
        return if whiteToMove then 0.0 else 1.0;
      }
      moves := moves + [bm];
    }
    r := Outcome(referee, moves);
  }

  /** An engine that answers with an illegal move loses the game, whichever colour it plays. */
  lemma IllegalMoveLoses(referee: Referee, engines: Engines, moves: seq<string>, line: string)
    requires !referee.over(moves) && |moves| < MAX_PLIES && !engines.stopped(moves)
    requires engines.bestmoveLine(moves) == Some(line)
    requires BestMoveOf(line) != "0000" && !referee.legal(moves, BestMoveOf(line))
    ensures GameFrom(referee, engines, moves) == if |moves| % 2 == 0 then 0.0 else 1.0
  {
  }

  /** A game interrupted by the stop flag counts as a draw, to keep the estimate unbiased. */
  lemma StoppedGameIsDraw(referee: Referee, engines: Engines, moves: seq<string>)
    requires !referee.over(moves) && |moves| < MAX_PLIES && engines.stopped(moves)
    ensures GameFrom(referee, engines, moves) == 1.0 / 2.0
  {
  }

  /** Engines that never lose on an illegal move, never stop and never see a decisive outcome
   *  draw every game. */
  lemma {:induction false} NoWinnerMeansDraw(referee: Referee, engines: Engines, moves: seq<string>)
    requires forall m :: referee.winner(m) == None
    requires forall m :: engines.bestmoveLine(m).Some? ==> referee.legal(m, BestMoveOf(engines.bestmoveLine(m).value))
    ensures GameFrom(referee, engines, moves) == 1.0 / 2.0
    decreases MAX_PLIES - |moves|
  {
    if !(referee.over(moves) || |moves| >= MAX_PLIES) && !engines.stopped(moves) {
      match engines.bestmoveLine(moves)
      case None =>
      case Some(line) =>
        if BestMoveOf(line) != "0000" {
          NoWinnerMeansDraw(referee, engines, moves + [BestMoveOf(line)]);
        }
    }
  }

  // ---------------------------------------------------------------- matches

  /** A game's score for the side of interest, which plays White in even-numbered games. */
  function SideScore(g: nat, whiteScore: real): real
  {
    if g % 2 == 0 then whiteScore else 1.0 - whiteScore
  }

  /** The number of games played before the stop flag goes up. */
  function Played(games: nat, stopBefore: nat -> bool): (n: nat)
    ensures n <= games
    ensures forall g :: 0 <= g < n ==> !stopBefore(g)
    ensures n < games ==> stopBefore(n)
  {
    if games == 0 then 0
    else
      var p := Played(games - 1, stopBefore);
      if p < games - 1 || stopBefore(games - 1) then p else games
  }

  /** The side's total over the first `n` games. */
  function Total(n: nat, result: nat -> real): real
  {
    if n == 0 then 0.0 else Total(n - 1, result) + SideScore(n - 1, result(n - 1))
  }

  predicate IsScore(x: real)
  {
    x == 0.0 || x == 1.0 / 2.0 || x == 1.0
  }

  /** `_match_plus_vs_minus` (and `_match_A_vs_B`, the same loop): the side's score over the
   *  games played, with game `g`'s result from White's side given by `result(g)`. */
  method PlayMatch(games: nat, stopBefore: nat -> bool, result: nat -> real) returns (score: real)
    ensures score == Total(Played(games, stopBefore), result)
  {
    score := 0.0;
    var g := 0;
    while g < games
      invariant 0 <= g <= games && forall h :: 0 <= h < g ==> !stopBefore(h)
      invariant g <= Played(games, stopBefore) && score == Total(g, result)
    {
      if stopBefore(g) {
        break;
      }
      var sideIsWhite := g % 2 == 0;
      var res := result(g);
      if sideIsWhite {
        score := score + res;
      } else {
        score := score + (1.0 - res);
      }
      g := g + 1;
    }
  }

  /** The score lies between 0 and the number of games played, as the docstring promises. */
  lemma {:induction false} TotalBounds(n: nat, result: nat -> real)
    requires forall g :: 0 <= g < n ==> IsScore(result(g))
    ensures 0.0 <= Total(n, result) <= n as real
  {
    if n > 0 {
      TotalBounds(n - 1, result);
    }
  }

  /** Colours alternate: when White wins every game, the side scores the games it played as
   *  White, which are half of them rounded up; all draws give exactly half. */
  lemma {:induction false} ColoursAlternate(n: nat, result: nat -> real)
    ensures (forall g :: result(g) == 1.0) ==> Total(n, result) == ((n + 1) / 2) as real
    ensures (forall g :: result(g) == 1.0 / 2.0) ==> Total(n, result) == n as real / 2.0
  {
    if n > 0 {
      ColoursAlternate(n - 1, result);
    }
  }

  /** The SPSA signal `y = 2 * (avg - 0.5)` with `avg = score / games`, and 0.5 for no games. */
  function Signal(score: real, games: nat): (y: real)
    ensures games == 0 ==> y == 0.0
  {
    var avg := if games > 0 then score / games as real else 1.0 / 2.0;
    2.0 * (avg - 1.0 / 2.0)
  }

  /** The signal lies in [-1, 1] for a score the match can return, and has the sign of the side's
   *  advantage. */
  lemma SignalRange(score: real, games: nat)
    requires 0.0 <= score <= games as real
    ensures -1.0 <= Signal(score, games) <= 1.0
    ensures games > 0 ==> (Signal(score, games) > 0.0 <==> 2.0 * score > games as real)
    ensures games > 0 ==> (Signal(score, games) == 0.0 <==> 2.0 * score == games as real)
  {
    if games > 0 {
      var n := games as real;
      var avg := score / n;
      assert avg * n == score;
      assert 0.0 <= avg <= 1.0;
      assert Signal(score, games) == 2.0 * avg - 1.0;
      assert 2.0 * score - n == (2.0 * avg - 1.0) * n;
    }
  }
}
