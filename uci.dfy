/** The command reader of the UCI front end (uci.cpp): the `position` command, which loads a
 *  FEN and plays a list of moves; `setoption`, which splits a name and a value and clamps the
 *  numeric options; the limits of `go`; and the game ply the book is gated on. */
module Uci {
  import opened Types
  import opened Moves
  import opened Wrappers
  import opened Text
  import opened Decimal
  import opened PositionSpec
  import opened MoveGenSpec
  import opened PerftSpec
  import opened Attacks
  import opened Position
  import Fen
  import Legal
  import Perft
  import Magics
  import Search
  import TransTable

  // ---------------------------------------------------------------------------------------------
  // position [startpos | fen <fields>] [moves <m1> <m2> ...]
  // ---------------------------------------------------------------------------------------------

  const STARTPOS: string := "rnbqkbnr/pppppppp/8/8/8/8/PPPPPPPP/RNBQKBNR w KQkq - 0 1"

  /** What `parse_position_cmd` sets out to do with the words of a command: give up (`false`
   *  without touching the position), or load a FEN and then play a list of move strings. */
  datatype PositionPlan = Malformed | Load(fen: string, moves: seq<string>)

  /** The index of the first word `moves` at or after `a`, or the end. */
  function FenEnd(toks: seq<string>, a: nat): (k: nat)
    requires a <= |toks|
    ensures a <= k <= |toks|
    ensures forall j :: a <= j < k ==> toks[j] != "moves"
    ensures k < |toks| ==> toks[k] == "moves"
    decreases |toks| - a
  {
    if a < |toks| && toks[a] != "moves" then FenEnd(toks, a + 1) else a
  }

  /** The one `>>` after the position: the moves follow only when that word is `moves`. */
  function MovesAfter(toks: seq<string>, j: nat): (ms: seq<string>)
    requires j <= |toks|
    ensures ms == [] || (j < |toks| && toks[j] == "moves" && ms == toks[j + 1..])
  {
    if j < |toks| && toks[j] == "moves" then toks[j + 1..] else []
  }

  /** `parse_position_cmd` as written. The first word is skipped whatever it is. After `fen`
   *  the words up to `moves` are the FEN, but that `moves` has then been read already, so the
   *  moves are played only when a second `moves` follows it. */
  function PlanOf(toks: seq<string>): (p: PositionPlan)
    ensures p.Load? <==> |toks| >= 2 && (toks[1] == "startpos" || toks[1] == "fen")
    ensures p.Load? && toks[1] == "startpos" ==> p.fen == STARTPOS
    ensures p.Load? ==> |p.moves| <= |toks| - 2 && p.moves == toks[|toks| - |p.moves|..]
  {
    if |toks| < 2 then Malformed
    else if toks[1] == "startpos" then Load(STARTPOS, MovesAfter(toks, 2))
    else if toks[1] == "fen" then
      var k := FenEnd(toks, 2);
      Load(Join(toks[2..k], " "), if k == |toks| then [] else MovesAfter(toks, k + 1))
    else Malformed
  }

  /** The evidently intended reading: the words after the `moves` that ends the FEN are the
   *  moves. */
  function PlanIntended(toks: seq<string>): (p: PositionPlan)
    ensures p.Load? <==> |toks| >= 2 && (toks[1] == "startpos" || toks[1] == "fen")
    ensures p.Load? ==> |p.moves| <= |toks| - 2 && p.moves == toks[|toks| - |p.moves|..]
  {
    if |toks| < 2 then Malformed
    else if toks[1] == "startpos" then Load(STARTPOS, MovesAfter(toks, 2))
    else if toks[1] == "fen" then
      var k := FenEnd(toks, 2);
      Load(Join(toks[2..k], " "), if k == |toks| then [] else toks[k + 1..])
    else Malformed
  }

  /** A well-formed word: what one `>>` can return and what a command is built from. */
  predicate IsWord(w: string)
  {
    |w| > 0 && forall k :: 0 <= k < |w| ==> w[k] !in C_SPACE
  }

  predicate AllWords(ws: seq<string>)
  {
    forall i :: 0 <= i < |ws| ==> IsWord(ws[i])
  }

  /** The command a front end sends for a game from the start position (gui.py sends exactly
   *  `position startpos moves ...`, or `position startpos` before the first move). */
  function StartposCommand(ms: seq<string>): seq<string>
  {
    ["position", "startpos"] + (if |ms| == 0 then [] else ["moves"] + ms)
  }

  /** The command for a game from a FEN. */
  function FenCommand(fen: seq<string>, ms: seq<string>): seq<string>
  {
    ["position", "fen"] + fen + (if |ms| == 0 then [] else ["moves"] + ms)
  }

  lemma LiteralWords()
    ensures IsWord("position") && IsWord("startpos") && IsWord("fen") && IsWord("moves")
  {
  }

  /** The line a front end writes for a command is read back as the same words. */
  lemma CommandWords(toks: seq<string>)
    requires AllWords(toks)
    ensures Text.Words(Join(toks, " "), C_SPACE) == toks
  {
    WordsJoin(toks, C_SPACE);
  }

  /** A start-position command plays exactly its moves. */
  lemma StartposPlan(ms: seq<string>)
    requires AllWords(ms)
    ensures var toks := StartposCommand(ms);
      AllWords(toks) && PlanOf(toks) == Load(STARTPOS, ms) && PlanIntended(toks) == Load(STARTPOS, ms)
  {
    LiteralWords();
    var toks := StartposCommand(ms);
    if |ms| > 0 {
      assert toks[3..] == ms;
    }
  }

  /** The FEN is the words after `fen` up to `moves`, joined by single spaces. */
  lemma FenWordsJoined(fen: seq<string>, ms: seq<string>)
    requires forall i :: 0 <= i < |fen| ==> fen[i] != "moves"
    ensures var toks := FenCommand(fen, ms);
      && FenEnd(toks, 2) == 2 + |fen| && toks[2..2 + |fen|] == fen
      && (|ms| > 0 ==> toks[2 + |fen| + 1..] == ms)
  {
    var toks := FenCommand(fen, ms);
    assert toks[2..2 + |fen|] == fen;
    FenEndAt(toks, 2, 2 + |fen|);
    if |ms| > 0 {
      assert toks[2 + |fen| + 1..] == ms;
    }
  }

  lemma {:induction false} FenEndAt(toks: seq<string>, a: nat, k: nat)
    requires a <= k <= |toks|
    requires forall j :: a <= j < k ==> toks[j] != "moves"
    requires k < |toks| ==> toks[k] == "moves"
    ensures FenEnd(toks, a) == k
    decreases k - a
  {
    if a < k {
      FenEndAt(toks, a + 1, k);
    }
  }

  /** As written, a FEN command drops its moves: the word after `moves` is taken for the
   *  `moves` keyword, and unless it is one the command ends there. */
  lemma FenMovesDropped(fen: seq<string>, ms: seq<string>)
    requires forall i :: 0 <= i < |fen| ==> fen[i] != "moves"
    requires |ms| > 0 && ms[0] != "moves"
    ensures PlanOf(FenCommand(fen, ms)) == Load(Join(fen, " "), [])
  {
    var toks := FenCommand(fen, ms);
    FenWordsJoined(fen, ms);
    var k := 2 + |fen|;
    assert toks == ["position", "fen"] + fen + (["moves"] + ms);
    assert k + 1 < |toks| && toks[k + 1] == ms[0];
    assert MovesAfter(toks, k + 1) == [];
    assert PlanOf(toks) == Load(Join(toks[2..k], " "), MovesAfter(toks, k + 1));
  }

  /** The intended reading plays a FEN command's moves. */
  lemma FenMovesPlayed(fen: seq<string>, ms: seq<string>)
    requires forall i :: 0 <= i < |fen| ==> fen[i] != "moves"
    ensures PlanIntended(FenCommand(fen, ms)) == Load(Join(fen, " "), ms)
  {
    var toks := FenCommand(fen, ms);
    FenWordsJoined(fen, ms);
    var k := 2 + |fen|;
    if |ms| == 0 {
      assert k == |toks|;
    }
  }

  /** The two readings differ only on a FEN command that has moves. */
  lemma PlansAgree(toks: seq<string>)
    requires |toks| < 2 || toks[1] != "fen" || FenEnd(toks, 2) == |toks|
    ensures PlanOf(toks) == PlanIntended(toks)
  {
  }

  // ---------------------------------------------------------------------------------------------
  // Playing the moves of a position command
  // ---------------------------------------------------------------------------------------------

  /** What replaying the moves `ms` from `s` needs so that every `gen_pseudo` and king test of
   *  the loop stays inside its tables: a recorded king of the side to move before the first
   *  move, and of both sides when a second move follows (a side without a king has `NO_SQ`
   *  there). */
  ghost predicate Replayable(s: PosState, ms: seq<string>)
  {
    |ms| > 0 ==> GenReady(s) && (|ms| > 1 ==> 0 <= s.kingSq[Other(s.stm)] < 64)
  }

  /** One turn of the loop from `s`: `parse_uci_move` reads `u`, and the move it finds is made
   *  with the as-written `make` in the position the search leaves. The pair is the position
   *  after the turn and whether a move was found; when none is, the position is the one the
   *  search left. */
  ghost function PlayStep(s: PosState, u: string): (r: (PosState, bool))
    requires GenReady(s)
    ensures Shaped(r.0)
    ensures !r.1 ==> r.0.stm == s.stm
    ensures r.1 ==> && r.0.stm == Other(s.stm) && r.0.kingSq[Other(s.stm)] == s.kingSq[Other(s.stm)]
                    && 0 <= r.0.kingSq[s.stm] < 64 && (r.0.epSq == NO_SQ || 0 <= r.0.epSq < 64)
  {
    var p := Legal.ParseWritten(s, u);
    if p.0 == 0 then (p.1, false)
    else
      Legal.ParseWrittenSound(s, u);
      GenCanMake(s);
      Legal.MadeReady(p.1, p.0);
      (Make(p.1, p.0).0, true)
  }

  /** After a turn that found a move the loop can go on with `rest`. */
  lemma StepReplayable(s: PosState, u: string, rest: seq<string>)
    requires Replayable(s, [u] + rest) && PlayStep(s, u).1
    ensures Replayable(PlayStep(s, u).0, rest)
  {
    var t := PlayStep(s, u).0;
    if |rest| > 0 {
      assert |[u] + rest| > 1;
      OtherSwaps(s.stm);
      assert t.kingSq[t.stm] == s.kingSq[Other(s.stm)];
    }
  }

  /** The moves played in turn from `s`, as `parse_position_cmd` plays them: the loop stops
   *  with `false` at the first string that reads as no move. */
  ghost function Replay(s: PosState, ms: seq<string>): (r: (PosState, bool))
    requires Replayable(s, ms)
    ensures !r.1 ==> |ms| > 0
    ensures |ms| > 0 ==> Shaped(r.0)
    decreases |ms|
  {
    if |ms| == 0 then (s, true)
    else
      assert ms == [ms[0]] + ms[1..];
      var p := PlayStep(s, ms[0]);
      if !p.1 then p
      else
        StepReplayable(s, ms[0], ms[1..]);
        Replay(p.0, ms[1..])
  }

  /** Playing `ms1 + ms2` is playing `ms1`, then, when every move of it was read, `ms2` from the
   *  position it leaves. */
  lemma {:induction false} ReplayConcat(s: PosState, ms1: seq<string>, ms2: seq<string>)
    requires Replayable(s, ms1 + ms2)
    ensures Replayable(s, ms1)
    ensures Replay(s, ms1).1 ==> Replayable(Replay(s, ms1).0, ms2)
    ensures Replay(s, ms1 + ms2) == if Replay(s, ms1).1 then Replay(Replay(s, ms1).0, ms2) else Replay(s, ms1)
    decreases |ms1|
  {
    var ms := ms1 + ms2;
    if |ms1| == 0 {
      assert ms == ms2;
    } else {
      assert ms[0] == ms1[0] && ms[1..] == ms1[1..] + ms2;
      assert ms == [ms[0]] + ms[1..] && ms1 == [ms1[0]] + ms1[1..];
      var p := PlayStep(s, ms1[0]);
      if p.1 {
        StepReplayable(s, ms[0], ms[1..]);
        assert Replay(s, ms) == Replay(p.0, ms1[1..] + ms2);
        assert Replay(s, ms1) == Replay(p.0, ms1[1..]);
        ReplayConcat(p.0, ms1[1..], ms2);
      } else {
        assert Replay(s, ms) == p == Replay(s, ms1);
      }
    }
  }

  /** One half-move less flips the parity. */
  lemma ParityStep(n: nat)
    requires n > 0
    ensures (n - 1) % 2 == 0 <==> n % 2 != 0
  {
  }

  /** Each move read flips the side to move, so a replay that reads all of `ms` leaves the side
   *  that `|ms|` half-moves make. `PlayMoves` keeps the full-move number, so the counters `go`
   *  then reads are `WrittenCounters` of the loaded ones. */
  lemma {:induction false} ReplaySideToMove(s: PosState, ms: seq<string>)
    requires Replayable(s, ms)
    ensures Replay(s, ms).1 ==> Replay(s, ms).0.stm == if |ms| % 2 == 0 then s.stm else Other(s.stm)
    decreases |ms|
  {
    if |ms| == 0 {
      assert Replay(s, ms) == (s, true);
    } else {
      assert ms == [ms[0]] + ms[1..];
      var p := PlayStep(s, ms[0]);
      if p.1 {
        StepReplayable(s, ms[0], ms[1..]);
        var r := Replay(p.0, ms[1..]);
        assert Replay(s, ms) == r;
        ReplaySideToMove(p.0, ms[1..]);
        OtherSwaps(s.stm);
        assert r.1 ==> r.0.stm == if (|ms| - 1) % 2 == 0 then Other(s.stm) else s.stm;
        ParityStep(|ms|);
      } else {
        assert Replay(s, ms) == p;
      }
    }
  }

  /** In a coherent position a turn reads its string as `ParseSpec` reads it, the search leaves
   *  the position as it was, and the move found is made there. */
  lemma ReplayStepCoherent(s: PosState, u: string)
    requires Coherent(s)
    ensures var m := Legal.ParseSpec(s, u);
      && (m != 0 ==> MakeDefined(s, m))
      && PlayStep(s, u) == if m == 0 then (s, false) else (Make(s, m).0, true)
  {
    Legal.ParseWrittenCoherent(s, u);
    if Legal.ParseSpec(s, u) != 0 {
      Legal.ParseWrittenSound(s, u);
      GenCanMake(s);
    }
  }

  /** What the model asks of the FEN a plan loads: one the loader does not leave undefined, and
   *  when it is accepted, a position whose move loop stays inside its tables. */
  ghost predicate Loadable(p: PositionPlan)
  {
    p.Load? ==> Fen.Parse(p.fen) != Fen.Undefined && (Fen.Parse(p.fen).Accepted? ==> Replayable(Fen.Parse(p.fen).s, p.moves))
  }

  /** The position a plan leaves and the answer `parse_position_cmd` gives: a malformed command
   *  or a rejected FEN leaves `s` as it was; otherwise the moves are played from the FEN. */
  ghost function Outcome(s: PosState, p: PositionPlan): (r: (PosState, bool))
    requires Loadable(p)
    ensures !p.Load? ==> r == (s, false)
    ensures p.Load? && !Fen.Parse(p.fen).Accepted? ==> r == (s, false)
    ensures p.Load? && Fen.Parse(p.fen).Accepted? && Replay(Fen.Parse(p.fen).s, p.moves).1 ==> r.1
  {
    if p.Malformed? || !Fen.Parse(p.fen).Accepted? then (s, false)
    else Replay(Fen.Parse(p.fen).s, p.moves)
  }

  /** `parse_position_cmd`: the words of the line are read in turn; the position is loaded from
   *  the FEN and the moves are played, as the as-written plan says. */
  method ParsePositionCmd(pos: Position, line: string, atk: LeaperTables, mt: Magics.MagicTables) returns (ok: bool)
    requires Perft.Env(pos, atk, mt) && Loadable(PlanOf(Text.Words(line, C_SPACE)))
    modifies pos, pos.bb, pos.occ, pos.board, pos.kingSq
    ensures Perft.Env(pos, atk, mt) && pos.SameArrays()
    ensures (pos.State(), ok) == Outcome(old(pos.State()), PlanOf(Text.Words(line, C_SPACE)))
  {
    var plan := ReadPlan(Text.Words(line, C_SPACE));
    if plan.Malformed? {
      return false;
    }
    ok := LoadAndPlay(pos, plan.fen, plan.moves, atk, mt);
  }

  /** The word-reading part of `parse_position_cmd`. */
  method ReadPlan(toks: seq<string>) returns (plan: PositionPlan)
    ensures plan == PlanOf(toks)
  {
    if |toks| < 2 {
      return Malformed;
    }
    var fen: string;
    var j: nat;
    if toks[1] == "startpos" {
      fen := STARTPOS;
      j := 2;
    } else if toks[1] == "fen" {
      fen, j := FenWords(toks);
      if j == |toks| {
        return Load(fen, []);
      }
      j := j + 1;
    } else {
      return Malformed;
    }
    if j >= |toks| || toks[j] != "moves" {
      return Load(fen, []);
    }
    return Load(fen, toks[j + 1..]);
  }

  /** `load_fen`, then the moves; a rejected FEN gives `false` and leaves the position. */
  method LoadAndPlay(pos: Position, fen: string, ms: seq<string>, atk: LeaperTables, mt: Magics.MagicTables)
    returns (ok: bool)
    requires Perft.Env(pos, atk, mt) && Loadable(Load(fen, ms))
    modifies pos, pos.bb, pos.occ, pos.board, pos.kingSq
    ensures Perft.Env(pos, atk, mt) && pos.SameArrays()
    ensures (pos.State(), ok) == Outcome(old(pos.State()), Load(fen, ms))
  {
    var loaded := Fen.LoadFen(pos, fen);
    if !loaded {
      return false;
    }
    ok := PlayMoves(pos, ms, atk, mt);
  }

  /** The loop that collects the FEN: the words after `fen` up to `moves`, joined by spaces;
   *  `j` is where it stopped. */
  method FenWords(toks: seq<string>) returns (fen: string, j: nat)
    requires 2 <= |toks|
    ensures j == FenEnd(toks, 2) && fen == Join(toks[2..j], " ")
  {
    fen := "";
    j := 2;
    while j < |toks| && toks[j] != "moves"
      invariant 2 <= j <= |toks|
      invariant forall i :: 2 <= i < j ==> toks[i] != "moves"
      invariant fen == Join(toks[2..j], " ")
    {
      JoinSnoc(toks[2..j], toks[j], " ");
      assert toks[2..j + 1] == toks[2..j] + [toks[j]];
      fen := fen + (if j > 2 then " " else "") + toks[j];
      j := j + 1;
    }
    FenEndAt(toks, 2, j);
  }

  /** The loop over the move strings: each is read with `parse_uci_move` and made with the
   *  as-written `make`. The clocks are never touched. */
  method PlayMoves(pos: Position, ms: seq<string>, atk: LeaperTables, mt: Magics.MagicTables) returns (ok: bool)
    requires Perft.Env(pos, atk, mt) && Replayable(pos.State(), ms)
    modifies pos, pos.bb, pos.occ, pos.board, pos.kingSq
    ensures Perft.Env(pos, atk, mt) && pos.SameArrays()
    ensures pos.halfmoveClock == old(pos.halfmoveClock) && pos.fullmoveNumber == old(pos.fullmoveNumber)
    ensures (pos.State(), ok) == Replay(old(pos.State()), ms)
  {
    ghost var goal := Replay(pos.State(), ms);
    var j := 0;
    while j < |ms|
      invariant 0 <= j <= |ms|
      invariant Perft.Env(pos, atk, mt) && Replayable(pos.State(), ms[j..])
      invariant pos.bb == old(pos.bb) && pos.occ == old(pos.occ) && pos.board == old(pos.board) && pos.kingSq == old(pos.kingSq)
      invariant pos.halfmoveClock == old(pos.halfmoveClock) && pos.fullmoveNumber == old(pos.fullmoveNumber)
      invariant Replay(pos.State(), ms[j..]) == goal
    {
      ok := PlayOne(pos, ms[j], atk, mt, ms[j + 1..]);
      assert ms[j..] == [ms[j]] + ms[j + 1..];
      if !ok {
        return false;
      }
      j := j + 1;
    }
    return true;
  }

  /** One move of the loop: read it, and make it when it reads as a move. */
  method PlayOne(pos: Position, u: string, atk: LeaperTables, mt: Magics.MagicTables, ghost rest: seq<string>)
    returns (ok: bool)
    requires Perft.Env(pos, atk, mt) && Replayable(pos.State(), [u] + rest)
    modifies pos, pos.bb, pos.occ, pos.board, pos.kingSq
    ensures Perft.Env(pos, atk, mt) && pos.SameArrays()
    ensures pos.halfmoveClock == old(pos.halfmoveClock) && pos.fullmoveNumber == old(pos.fullmoveNumber)
    ensures ok ==> Replayable(pos.State(), rest)
    ensures !ok ==> Replay(old(pos.State()), [u] + rest) == (pos.State(), false)
    ensures ok ==> Replay(old(pos.State()), [u] + rest) == Replay(pos.State(), rest)
  {
    ghost var s := pos.State();
    ghost var ms := [u] + rest;
    assert ms[0] == u && ms[1..] == rest;
    var m := Legal.ParseUciMove(pos, u, atk, mt);
    if m == 0 {
      return false;
    }
    Legal.ParseWrittenSound(s, u);
    GenCanMake(s);
    Legal.MadeReady(pos.State(), m);
    var _ := Legal.ApplyWritten(pos, m, atk, mt);
    StepReplayable(s, u, rest);
    ok := true;
  }

  // ---------------------------------------------------------------------------------------------
  // setoption name <Name> value <Value>
  // ---------------------------------------------------------------------------------------------

  /** The words after `name` up to the word `value`, joined by single spaces, and the index just
   *  after `value` (`None` when the line ends first). */
  function NameScan(s: string, a: nat, name: string): (r: (string, Option<nat>))
    requires a <= |s|
    ensures r.1.Some? ==> a < r.1.value <= |s|
    decreases |s| - a
  {
    match NextWord(s, C_SPACE, a)
    case NoWord => (name, None)
    case Word(tok, e) =>
      if tok == "value" then (name, Some(e))
      else NameScan(s, e, if |name| == 0 then tok else name + " " + tok)
  }

  /** `std::getline` on what is left of the stream, then the leading spaces (only ' ') dropped.
   *  When the line ended before `value`, the stream has failed and the value stays empty. */
  function ValueText(s: string, at: Option<nat>): (v: string)
    requires at.Some? ==> at.value <= |s|
    ensures '\n' !in v && (|v| > 0 ==> v[0] != ' ')
  {
    if at.None? then ""
    else
      var rest := s[at.value..];
      var k := Find(rest, '\n');
      var line := if k < 0 then rest else rest[..k];
      line[SkipLead(line, {' '}, 0)..]
  }

  /** The name and the value `setoption` hands to the option switch, or `None` when the word
   *  after the first is not `name` (a failed read leaves the first word in place). */
  function SetOptionArgs(line: string): (r: Option<(string, string)>)
  {
    match NextWord(line, C_SPACE, 0)
    case NoWord => None
    case Word(first, e0) =>
      match NextWord(line, C_SPACE, e0)
      case NoWord => if first == "name" then Some(("", "")) else None
      case Word(second, e1) =>
        if second != "name" then None
        else
          var (name, at) := NameScan(line, e1, "");
          Some((name, ValueText(line, at)))
  }

  /** The line a front end writes to set an option with a one-word name. */
  function SetOptionLine(name: string, value: string): string
  {
    "setoption name " + name + " value " + value
  }

  /** A one-word name and a value on one line, not starting with a space, are read back. */
  lemma SetOptionRoundTrip(name: string, value: string)
    requires IsWord(name) && name != "value"
    requires '\n' !in value && (|value| > 0 ==> value[0] != ' ')
    ensures SetOptionArgs(SetOptionLine(name, value)) == Some((name, value))
  {
    var n := |name|;
    var line := SetOptionLine(name, value);
    HeadWords(name, value);
    TailWords(name, value);
    assert NameScan(line, 15 + n, name) == (name, Some(21 + n));
    assert NameScan(line, 14, "") == (name, Some(21 + n));
    ValueAfter(line, 21 + n, value);
  }

  /** The first three words of a `setoption` line. */
  lemma HeadWords(name: string, value: string)
    requires IsWord(name)
    ensures var line := SetOptionLine(name, value);
      && NextWord(line, C_SPACE, 0) == Word("setoption", 9)
      && NextWord(line, C_SPACE, 9) == Word("name", 14)
      && NextWord(line, C_SPACE, 14) == Word(name, 15 + |name|)
  {
    var line := SetOptionLine(name, value);
    SetOptionWords();
    var head := "setoption name ";
    var tail := " value " + value;
    assert line == head + name + tail;
    Middle(head, name, tail);
    WordAt(line, 0, 0, "setoption");
    WordAt(line, 9, 10, "name");
    WordAt(line, 14, 15, name);
  }

  /** The word `value` and the text after it in a `setoption` line. */
  lemma TailWords(name: string, value: string)
    ensures var line := SetOptionLine(name, value); var n := |name|;
      && NextWord(line, C_SPACE, 15 + n) == Word("value", 21 + n)
      && line[21 + n..] == " " + value
  {
    var n := |name|;
    var line := SetOptionLine(name, value);
    SetOptionWords();
    var head := "setoption name " + name + " ";
    assert line == head + "value" + (" " + value);
    Middle(head, "value", " " + value);
    WordAt(line, 15 + n, 16 + n, "value");
  }

  lemma SetOptionWords()
    ensures IsWord("setoption") && IsWord("name") && IsWord("value")
  {
  }

  /** Slicing a three-part concatenation gives back its parts. */
  lemma Middle(x: string, y: string, z: string)
    ensures (x + y + z)[..|x|] == x
    ensures (x + y + z)[|x|..|x| + |y|] == y
    ensures (x + y + z)[|x| + |y|..] == z
  {
  }

  /** `>>` from `b` over spaces up to `a` reads the word `w` stored at `a`. */
  lemma WordAt(s: string, b: nat, a: nat, w: string)
    requires IsWord(w) && b <= a && a + |w| <= |s| && s[a..a + |w|] == w
    requires forall k :: b <= k < a ==> s[k] == ' '
    requires a + |w| < |s| ==> s[a + |w|] in C_SPACE
    ensures NextWord(s, C_SPACE, b) == Word(w, a + |w|)
  {
    forall k | a <= k < a + |w|
      ensures s[k] !in C_SPACE
    {
      assert s[k] == w[k - a];
    }
    NextWordAt(s, C_SPACE, b, a, a + |w|);
  }

  /** The value after `value` is the rest of a one-line text, its separating space dropped. */
  lemma ValueAfter(line: string, at: nat, value: string)
    requires at <= |line| && line[at..] == " " + value
    requires '\n' !in value && (|value| > 0 ==> value[0] != ' ')
    ensures ValueText(line, Some(at)) == value
  {
    var rest := line[at..];
    assert rest[1..] == value;
    FindNone(rest, '\n');
    assert SkipLead(rest, {' '}, 0) == 1;
  }

  lemma FindNone(s: string, c: char)
    requires c !in s
    ensures Find(s, c) == -1
  {
  }

  /** The options the switch sets, with the values the engine advertises in its `uci` reply
   *  (and the 64 MB table `uci_loop` sizes before the first command). */
  datatype Options = Options(
    hashMb: int, moveOverheadMs: int, syzygyPath: string, threads: int, useSyzygy: bool,
    useBook: bool, bookFile: string, bookRandom: bool, bookMinWeight: int, bookMaxPly: int,
    multiPv: int, paramFile: string)

  const ADVERTISED: Options := Options(64, 50, "", 1, true, true, "", true, 1, 20, 1, "")

  /** Every spin option inside the range the `uci` reply advertises. */
  predicate InRange(o: Options)
  {
    && 1 <= o.hashMb <= 2048 && 0 <= o.moveOverheadMs <= 500 && 1 <= o.threads <= 64
    && 0 <= o.bookMinWeight <= 65535 && 0 <= o.bookMaxPly <= 200 && 1 <= o.multiPv <= 10
  }

  /** A check option is off only for `false` and `0`. */
  predicate CheckOn(value: string)
  {
    value != "false" && value != "0"
  }

  /** The option names the `setoption` switch knows. */
  datatype OptionName =
    | Hash | MoveOverhead | SyzygyPath | Threads | UseSyzygy | OwnBook
    | BookFile | BookRandom | BookMinWeight | BookMaxPly | MultiPV | ParamFile

  const SPIN_NAMES: set<string> := {"Hash", "MoveOverhead", "Threads", "BookMinWeight", "BookMaxPly", "MultiPV"}
  const OPTION_NAMES: set<string> := SPIN_NAMES + {"SyzygyPath", "UseSyzygy", "OwnBook", "BookFile", "BookRandom", "ParamFile"}

  /** Which branch of the switch a name selects; `None` for a name no branch tests. */
  function OptionNamed(name: string): (k: Option<OptionName>)
  {
    if name == "Hash" then Some(Hash)
    else if name == "MoveOverhead" then Some(MoveOverhead)
    else if name == "SyzygyPath" then Some(SyzygyPath)
    else if name == "Threads" then Some(Threads)
    else if name == "UseSyzygy" then Some(UseSyzygy)
    else if name == "OwnBook" then Some(OwnBook)
    else if name == "BookFile" then Some(BookFile)
    else if name == "BookRandom" then Some(BookRandom)
    else if name == "BookMinWeight" then Some(BookMinWeight)
    else if name == "BookMaxPly" then Some(BookMaxPly)
    else if name == "MultiPV" then Some(MultiPV)
    else if name == "ParamFile" then Some(ParamFile)
    else None
  }

  /** The spin options, whose value goes through `std::stoi` and a clamp. */
  predicate IsSpin(k: OptionName)
  {
    k.Hash? || k.MoveOverhead? || k.Threads? || k.BookMinWeight? || k.BookMaxPly? || k.MultiPV?
  }

  /** One branch of the switch: a spin option takes `std::stoi` of the value clamped to its
   *  range and keeps its old value when `stoi` throws; a check option is on unless the value is
   *  `false` or `0`; a string option takes the value. */
  function Set(o: Options, k: OptionName, value: string): (r: Options)
    ensures InRange(o) ==> InRange(r)
    ensures IsSpin(k) && CStoi(value).None? ==> r == o
  {
    var n := CStoi(value);
    match k
    case Hash => if n.Some? then o.(hashMb := Search.Clampi(n.value, 1, 2048)) else o
    case MoveOverhead => if n.Some? then o.(moveOverheadMs := Search.Clampi(n.value, 0, 500)) else o
    case SyzygyPath => o.(syzygyPath := value)
    case Threads => if n.Some? then o.(threads := Search.Clampi(n.value, 1, 64)) else o
    case UseSyzygy => o.(useSyzygy := CheckOn(value))
    case OwnBook => o.(useBook := CheckOn(value))
    case BookFile => o.(bookFile := value)
    case BookRandom => o.(bookRandom := CheckOn(value))
    case BookMinWeight => if n.Some? then o.(bookMinWeight := Search.Clampi(n.value, 0, 65535)) else o
    case BookMaxPly => if n.Some? then o.(bookMaxPly := Search.Clampi(n.value, 0, 200)) else o
    case MultiPV => if n.Some? then o.(multiPv := Search.Clampi(n.value, 1, 10)) else o
    case ParamFile => o.(paramFile := value)
  }

  /** Exactly the twelve names select a branch, and the six spin names select spin options. */
  lemma OptionNames(name: string)
    ensures OptionNamed(name).None? <==> name !in OPTION_NAMES
    ensures OptionNamed(name).Some? ==> (IsSpin(OptionNamed(name).value) <==> name in SPIN_NAMES)
  {
  }

  /** The option switch of `setoption` on the option values; an unknown name changes nothing. */
  function Applied(o: Options, name: string, value: string): (r: Options)
    ensures InRange(o) ==> InRange(r)
    ensures name !in OPTION_NAMES ==> r == o
    ensures name in SPIN_NAMES && CStoi(value).None? ==> r == o
  {
    OptionNames(name);
    match OptionNamed(name)
    case None => o
    case Some(k) => Set(o, k, value)
  }

  /** The range `setoption` clamps a spin option to, as the `uci` reply advertises it. */
  function SpinRange(k: OptionName): (r: (int, int))
    requires IsSpin(k)
    ensures r.0 <= r.1
  {
    match k
    case Hash => (1, 2048)
    case MoveOverhead => (0, 500)
    case Threads => (1, 64)
    case BookMinWeight => (0, 65535)
    case BookMaxPly => (0, 200)
    case MultiPV => (1, 10)
  }

  /** The value a spin option holds. */
  function SpinValue(o: Options, k: OptionName): int
    requires IsSpin(k)
  {
    match k
    case Hash => o.hashMb
    case MoveOverhead => o.moveOverheadMs
    case Threads => o.threads
    case BookMinWeight => o.bookMinWeight
    case BookMaxPly => o.bookMaxPly
    case MultiPV => o.multiPv
  }

  /** A spin value `std::stoi` reads as `n` sets its option to `n` clamped to the range, and
   *  every other option keeps its value. */
  lemma SpinClamped(o: Options, k: OptionName, v: string, n: int)
    requires IsSpin(k) && CStoi(v) == Some(n)
    ensures SpinValue(Set(o, k, v), k) == Search.Clampi(n, SpinRange(k).0, SpinRange(k).1)
    ensures forall k' :: IsSpin(k') && k' != k ==> SpinValue(Set(o, k, v), k') == SpinValue(o, k')
    ensures Set(o, k, v).(hashMb := o.hashMb, moveOverheadMs := o.moveOverheadMs, threads := o.threads,
      bookMinWeight := o.bookMinWeight, bookMaxPly := o.bookMaxPly, multiPv := o.multiPv) == o
  {
  }

  /** A value written by `std::to_string` and followed by non-digit text is taken as it is when
   *  it lies inside the advertised range, and pulled to the nearer end otherwise. */
  lemma SpinValues(o: Options, name: string, n: int, rest: string)
    requires name in SPIN_NAMES
    requires INT_MIN <= n <= INT_MAX && (|rest| > 0 ==> !IsDigit(rest[0]))
    ensures var k := OptionNamed(name).value; var v := IntToString(n) + rest;
      SpinValue(Applied(o, name, v), k) == Search.Clampi(n, SpinRange(k).0, SpinRange(k).1)
  {
    OptionNames(name);
    CStoiOfString(n, rest);
    SpinClamped(o, OptionNamed(name).value, IntToString(n) + rest, n);
  }

  /** Setting an option twice is setting it once to the second value. */
  lemma LastSettingWins(o: Options, name: string, v1: string, v2: string)
    ensures Applied(Applied(o, name, v1), name, v2) == Applied(o, name, v2) || (name in SPIN_NAMES && CStoi(v2).None?)
  {
    match OptionNamed(name)
    case None =>
    case Some(k) =>
      OptionNames(name);
      SetTwice(o, k, v1, v2);
  }

  lemma SetTwice(o: Options, k: OptionName, v1: string, v2: string)
    ensures Set(Set(o, k, v1), k, v2) == Set(o, k, v2) || (IsSpin(k) && CStoi(v2).None?)
  {
  }

  // ---------------------------------------------------------------------------------------------
  // go [wtime <ms>] [btime <ms>] [winc <ms>] [binc <ms>] [movestogo <n>] [depth <n>] [movetime <ms>]
  // ---------------------------------------------------------------------------------------------

  /** `GoLimits`: every field an `int` that starts at 0; a depth of 0 means a timed search. */
  datatype GoLimits = GoLimits(
    wtimeMs: int, btimeMs: int, wincMs: int, bincMs: int, movesToGo: int, depth: int, movetimeMs: int)

  const NO_LIMITS: GoLimits := GoLimits(0, 0, 0, 0, 0, 0, 0)

  /** The keywords of `go`, each followed by one integer. */
  datatype GoKey = WTime | BTime | WInc | BInc | MovesToGo | Depth | MoveTime

  function GoKeyName(k: GoKey): string
  {
    match k
    case WTime => "wtime"
    case BTime => "btime"
    case WInc => "winc"
    case BInc => "binc"
    case MovesToGo => "movestogo"
    case Depth => "depth"
    case MoveTime => "movetime"
  }

  /** The keyword a word is, if any. */
  function GoKeyNamed(tok: string): Option<GoKey>
  {
    if tok == "wtime" then Some(WTime)
    else if tok == "btime" then Some(BTime)
    else if tok == "winc" then Some(WInc)
    else if tok == "binc" then Some(BInc)
    else if tok == "movestogo" then Some(MovesToGo)
    else if tok == "depth" then Some(Depth)
    else if tok == "movetime" then Some(MoveTime)
    else None
  }

  /** Every keyword is one word, and reading its name gives it back. */
  lemma GoKeyNames(k: GoKey)
    ensures GoKeyNamed(GoKeyName(k)) == Some(k) && IsWord(GoKeyName(k))
  {
  }

  /** The field a keyword fills. */
  function Limit(lim: GoLimits, k: GoKey): int
  {
    match k
    case WTime => lim.wtimeMs
    case BTime => lim.btimeMs
    case WInc => lim.wincMs
    case BInc => lim.bincMs
    case MovesToGo => lim.movesToGo
    case Depth => lim.depth
    case MoveTime => lim.movetimeMs
  }

  /** `iss >> field`: that field, and only it, takes the value. */
  function WithLimit(lim: GoLimits, k: GoKey, v: int): (r: GoLimits)
    ensures Limit(r, k) == v
    ensures forall k' :: k' != k ==> Limit(r, k') == Limit(lim, k')
  {
    match k
    case WTime => lim.(wtimeMs := v)
    case BTime => lim.(btimeMs := v)
    case WInc => lim.(wincMs := v)
    case BInc => lim.(bincMs := v)
    case MovesToGo => lim.(movesToGo := v)
    case Depth => lim.(depth := v)
    case MoveTime => lim.(movetimeMs := v)
  }

  /** Every field fits an `int`. */
  predicate IntLimits(lim: GoLimits)
  {
    forall k :: INT_MIN <= Limit(lim, k) <= INT_MAX
  }

  /** The `while (iss >> tok)` loop from index `a`: a keyword reads the integer after it; any
   *  other word is skipped. A read that fails (nothing left, no digits, or an overflow) stores
   *  what `>>` stores and fails the stream, which ends the loop. */
  function GoScan(s: string, a: nat, lim: GoLimits): (r: GoLimits)
    requires a <= |s|
    ensures IntLimits(lim) ==> IntLimits(r)
    decreases |s| - a
  {
    match NextWord(s, C_SPACE, a)
    case NoWord => lim
    case Word(tok, e) =>
      match GoKeyNamed(tok)
      case None => GoScan(s, e, lim)
      case Some(k) =>
        var r := ReadInt(s, e);
        var next := WithLimit(lim, k, Extracted(Limit(lim, k), r));
        if r.Read? then GoScan(s, r.next, next) else next
  }

  /** The limits of a `go` line: its first word is skipped, the rest scanned from no limits. */
  function GoLimitsOf(line: string): (lim: GoLimits)
    ensures IntLimits(lim)
  {
    match NextWord(line, C_SPACE, 0)
    case NoWord => NO_LIMITS
    case Word(_, e) => GoScan(line, e, NO_LIMITS)
  }

  /** The `go` branch of `uci_loop` up to the search: the limits read word by word. */
  method ParseGo(line: string) returns (lim: GoLimits)
    ensures lim == GoLimitsOf(line)
  {
    lim := NO_LIMITS;
    var first := NextWord(line, C_SPACE, 0);
    if first.NoWord? {
      return;
    }
    ghost var goal := GoLimitsOf(line);
    var i := first.next;
    while true
      invariant i <= |line|
      invariant GoScan(line, i, lim) == goal
      decreases |line| - i
    {
      var w := NextWord(line, C_SPACE, i);
      if w.NoWord? {
        return;
      }
      var k := GoKeyNamed(w.text);
      if k.None? {
        i := w.next;
      } else {
        var r := ReadInt(line, w.next);
        lim := WithLimit(lim, k.value, Extracted(Limit(lim, k.value), r));
        if !r.Read? {
          return;
        }
        i := r.next;
      }
    }
  }

  /** The arguments a front end writes after `go`: a keyword and a number for each pair. */
  function GoArgs(ps: seq<(GoKey, int)>): string
  {
    PairsText(ps, GoKeyName, IntToString)
  }

  /** Pairs written with the names `nm` gives the keys and the numerals `num` gives the numbers,
   *  each as ` <name> <numeral>`. */
  function PairsText(ps: seq<(GoKey, int)>, nm: GoKey -> string, num: int -> string): string
  {
    if |ps| == 0 then "" else " " + nm(ps[0].0) + " " + num(ps[0].1) + PairsText(ps[1..], nm, num)
  }

  /** Names that the scan reads back as their keys. */
  predicate ReadableNames(nm: GoKey -> string)
  {
    forall k :: IsWord(nm(k)) && GoKeyNamed(nm(k)) == Some(k)
  }

  /** The limits those pairs set, in order, so that a later pair for the same key wins. */
  function SetAll(lim: GoLimits, ps: seq<(GoKey, int)>): GoLimits
    decreases |ps|
  {
    if |ps| == 0 then lim else SetAll(WithLimit(lim, ps[0].0, ps[0].1), ps[1..])
  }

  predicate IntPairs(ps: seq<(GoKey, int)>)
  {
    forall i :: 0 <= i < |ps| ==> INT_MIN <= ps[i].1 <= INT_MAX
  }

  /** A `go` command written from keyword/number pairs reads back as those pairs applied in
   *  order; the fields it does not name keep their 0. */
  lemma GoReadsBack(ps: seq<(GoKey, int)>)
    requires IntPairs(ps)
    ensures GoLimitsOf("go" + GoArgs(ps)) == SetAll(NO_LIMITS, ps)
  {
    var line := "go" + GoArgs(ps);
    if |ps| == 0 {
      assert line == "go";
      WordAt(line, 0, 0, "go");
      NoWordAt(line, C_SPACE, 2);
    } else {
      assert line[0..2] == "go" && line[2] == ' ';
      WordAt(line, 0, 0, "go");
      assert line[2..] == PairsText(ps, GoKeyName, IntToString);
      assert ReadableNames(GoKeyName) by {
        forall k: GoKey
          ensures IsWord(GoKeyName(k)) && GoKeyNamed(GoKeyName(k)) == Some(k)
        {
          GoKeyNames(k);
        }
      }
      forall i | 0 <= i < |ps|
        ensures NumeralReads(IntToString(ps[i].1), ps[i].1)
      {
        IntToStringReads(ps[i].1);
      }
      PairsAtOf(line, 2, ps, GoKeyName, IntToString);
      GoScanFrom(line, Starts(2, ps, GoKeyName, IntToString), ps, GoKeyName, 0, NO_LIMITS);
      assert ps[0..] == ps;
    }
  }

  /** The command gui.py sends, `go movetime <ms>`, asks for a timed search of that many
   *  milliseconds and sets nothing else. */
  lemma GuiGoCommand(ms: int)
    requires INT_MIN <= ms <= INT_MAX
    ensures GoLimitsOf("go movetime " + IntToString(ms)) == NO_LIMITS.(movetimeMs := ms)
    ensures GoLimitsOf("go movetime " + IntToString(ms)).depth == 0
  {
    var ps := [(MoveTime, ms)];
    GuiGoLine(ms);
    GoReadsBack(ps);
    assert SetAll(NO_LIMITS, ps) == SetAll(NO_LIMITS.(movetimeMs := ms), []);
  }

  lemma GuiGoLine(ms: int)
    ensures "go" + GoArgs([(MoveTime, ms)]) == "go movetime " + IntToString(ms)
  {
    var ps := [(MoveTime, ms)];
    var d := IntToString(ms);
    assert ps[1..] == [];
    assert GoArgs(ps) == " " + GoKeyName(MoveTime) + " " + d + PairsText(ps[1..], GoKeyName, IntToString);
    assert GoArgs(ps) == " movetime " + d;
  }

  /** Written pairs start with a space. */
  lemma PairsTextSpace(ps: seq<(GoKey, int)>, nm: GoKey -> string, num: int -> string)
    ensures |PairsText(ps, nm, num)| > 0 ==> PairsText(ps, nm, num)[0] == ' '
  {
  }

  /** `>>` reads the numeral `d` as `v`: wherever `d` follows a space and is followed by a space
   *  or the end of the text, the read stops right after it with the value `v`. */
  ghost predicate NumeralReads(d: string, v: int)
  {
    forall s: string, e: nat ::
      (&& e + 1 + |d| <= |s| && s[e] == ' ' && s[e + 1..e + 1 + |d|] == d
       && (e + 1 + |d| < |s| ==> s[e + 1 + |d|] == ' '))
      ==> ReadInt(s, e) == Read(v, e + 1 + |d|)
  }

  /** Every `int` is read back from the numeral `IntToString` writes. */
  lemma IntToStringReads(v: int)
    requires INT_MIN <= v <= INT_MAX
    ensures NumeralReads(IntToString(v), v)
  {
    forall s: string, e: nat | e + 1 + |IntToString(v)| <= |s| && s[e] == ' ' &&
        s[e + 1..e + 1 + |IntToString(v)|] == IntToString(v) &&
        (e + 1 + |IntToString(v)| < |s| ==> s[e + 1 + |IntToString(v)|] == ' ')
      ensures ReadInt(s, e) == Read(v, e + 1 + |IntToString(v)|)
    {
      PairNumber(s, e, v);
    }
  }

  /** Where each written pair starts when the first starts at `a`: `pos[i]` for the pair `i`,
   *  and `pos[|ps|]` where the text ends. */
  function Starts(a: nat, ps: seq<(GoKey, int)>, nm: GoKey -> string, num: int -> string): (pos: seq<nat>)
    ensures |pos| == |ps| + 1 && pos[0] == a
    ensures forall i :: 0 <= i < |ps| ==> pos[i + 1] == pos[i] + 2 + |nm(ps[i].0)| + |num(ps[i].1)|
    decreases |ps|
  {
    if |ps| == 0 then [a]
    else
      var rest := Starts(a + 2 + |nm(ps[0].0)| + |num(ps[0].1)|, ps[1..], nm, num);
      assert forall i :: 0 < i < |ps| ==> ps[1..][i - 1] == ps[i] && rest[i - 1] == ([a] + rest)[i];
      [a] + rest
  }

  /** What the scan reads from the pair `k`/`v` written from `a` with the name `name`: that
   *  word, which names `k`, then the number `v`, which ends at `n`. */
  ghost predicate PairAt(s: string, a: nat, n: nat, k: GoKey, name: string, v: int)
  {
    && a + 1 + |name| <= |s|
    && NextWord(s, C_SPACE, a) == Word(name, a + 1 + |name|)
    && GoKeyNamed(name) == Some(k)
    && ReadInt(s, a + 1 + |name|) == Read(v, n)
  }

  /** What the scan reads from pairs that start at `pos`: each pair in turn, then nothing. */
  ghost predicate PairsAt(s: string, pos: seq<nat>, ps: seq<(GoKey, int)>, nm: GoKey -> string)
  {
    && |pos| == |ps| + 1
    && pos[|ps|] <= |s| && NextWord(s, C_SPACE, pos[|ps|]) == NoWord
    && forall i :: 0 <= i < |ps| ==> PairAt(s, pos[i], pos[i + 1], ps[i].0, nm(ps[i].0), ps[i].1)
  }

  /** The text from each pair's start writes the pairs from that one on. */
  lemma {:induction false} SuffixesWritten(s: string, a: nat, ps: seq<(GoKey, int)>, nm: GoKey -> string,
                                           num: int -> string, j: nat)
    requires j <= |ps|
    requires Starts(a, ps, nm, num)[j] <= |s| && s[Starts(a, ps, nm, num)[j]..] == PairsText(ps[j..], nm, num)
    ensures forall i :: j <= i <= |ps| ==>
      Starts(a, ps, nm, num)[i] <= |s| && s[Starts(a, ps, nm, num)[i]..] == PairsText(ps[i..], nm, num)
    decreases |ps| - j
  {
    if j < |ps| {
      SuffixAfter(s, Starts(a, ps, nm, num)[j], ps, nm, num, j);
      SuffixesWritten(s, a, ps, nm, num, j + 1);
    }
  }

  /** The text after the pair `j` writes the pairs after it. */
  lemma SuffixAfter(s: string, p: nat, ps: seq<(GoKey, int)>, nm: GoKey -> string, num: int -> string, j: nat)
    requires j < |ps| && p <= |s| && s[p..] == PairsText(ps[j..], nm, num)
    ensures p + 2 + |nm(ps[j].0)| + |num(ps[j].1)| <= |s|
    ensures s[p + 2 + |nm(ps[j].0)| + |num(ps[j].1)|..] == PairsText(ps[j + 1..], nm, num)
  {
    assert ps[j..][0] == ps[j] && ps[j..][1..] == ps[j + 1..];
    ArgsLayout(s, p, nm(ps[j].0), num(ps[j].1), PairsText(ps[j + 1..], nm, num));
  }

  /** The first of the pairs written from `a`, `k`/`v`, is read as `PairAt` says, up to `n`. */
  lemma PairAtOf(s: string, a: nat, n: nat, k: GoKey, v: int, ps: seq<(GoKey, int)>, nm: GoKey -> string,
                 num: int -> string)
    requires |ps| > 0 && ps[0] == (k, v) && n == a + 2 + |nm(k)| + |num(v)|
    requires a <= |s| && s[a..] == PairsText(ps, nm, num)
    requires IsWord(nm(k)) && GoKeyNamed(nm(k)) == Some(k) && NumeralReads(num(v), v)
    ensures PairAt(s, a, n, k, nm(k), v)
  {
    PairsTextSpace(ps[1..], nm, num);
    PairAtText(s, a, n, k, nm(k), v, num(v), PairsText(ps[1..], nm, num));
  }

  /** The pair `k`/`v` written from `a` as ` <name> <d>` before a text that is empty or starts
   *  with a space is read as `PairAt` says. */
  lemma PairAtText(s: string, a: nat, n: nat, k: GoKey, name: string, v: int, d: string, tail: string)
    requires IsWord(name) && GoKeyNamed(name) == Some(k) && NumeralReads(d, v)
    requires n == a + 2 + |name| + |d| && a <= |s| && s[a..] == " " + name + " " + d + tail
    requires |tail| > 0 ==> tail[0] == ' '
    ensures PairAt(s, a, n, k, name, v)
  {
    ArgsLayout(s, a, name, d, tail);
    PairAtLayout(s, a, n, k, name, v, d);
  }

  /** The pair `k`/`v` laid out from `a` as ` <name> <d>`, then a space or the end, is read as
   *  `PairAt` says. */
  lemma PairAtLayout(s: string, a: nat, n: nat, k: GoKey, name: string, v: int, d: string)
    requires IsWord(name) && GoKeyNamed(name) == Some(k) && NumeralReads(d, v)
    requires n == a + 2 + |name| + |d| <= |s|
    requires s[a] == ' ' && s[a + 1..a + 1 + |name|] == name && s[a + 1 + |name|] == ' '
    requires s[a + 2 + |name|..n] == d && (n < |s| ==> s[n] == ' ')
    ensures PairAt(s, a, n, k, name, v)
  {
    WordAt(s, a, a + 1, name);
    NumeralAt(s, a + 1 + |name|, d, v);
  }

  /** A numeral that reads back, written after a space and before a space or the end. */
  lemma NumeralAt(s: string, e: nat, d: string, v: int)
    requires NumeralReads(d, v)
    requires e + 1 + |d| <= |s| && s[e] == ' ' && s[e + 1..e + 1 + |d|] == d
    requires e + 1 + |d| < |s| ==> s[e + 1 + |d|] == ' '
    ensures ReadInt(s, e) == Read(v, e + 1 + |d|)
  {
  }

  /** Pairs written from `a` with readable names and numerals are read pair by pair. */
  lemma PairsAtOf(s: string, a: nat, ps: seq<(GoKey, int)>, nm: GoKey -> string, num: int -> string)
    requires a <= |s| && s[a..] == PairsText(ps, nm, num) && ReadableNames(nm)
    requires forall i :: 0 <= i < |ps| ==> NumeralReads(num(ps[i].1), ps[i].1)
    ensures PairsAt(s, Starts(a, ps, nm, num), ps, nm)
  {
    var pos := Starts(a, ps, nm, num);
    assert ps[0..] == ps;
    SuffixesWritten(s, a, ps, nm, num, 0);
    forall i | 0 <= i < |ps|
      ensures PairAt(s, pos[i], pos[i + 1], ps[i].0, nm(ps[i].0), ps[i].1)
    {
      assert ps[i..][0] == ps[i];
      PairAtOf(s, pos[i], pos[i + 1], ps[i].0, ps[i].1, ps[i..], nm, num);
    }
    assert ps[|ps|..] == [];
    NoWordAt(s, C_SPACE, pos[|ps|]);
  }

  /** The scan from the start of the pair `j` sets the pairs from `j` on, in order. */
  lemma {:induction false} GoScanFrom(s: string, pos: seq<nat>, ps: seq<(GoKey, int)>, nm: GoKey -> string,
                                      j: nat, lim: GoLimits)
    requires PairsAt(s, pos, ps, nm) && j <= |ps|
    ensures pos[j] <= |s| && GoScan(s, pos[j], lim) == SetAll(lim, ps[j..])
    decreases |ps| - j
  {
    if j == |ps| {
      assert ps[j..] == [];
    } else {
      var k, v := ps[j].0, ps[j].1;
      assert PairAt(s, pos[j], pos[j + 1], k, nm(k), v);
      GoScanRead(s, pos[j], lim, nm(k), pos[j] + 1 + |nm(k)|, k, v, pos[j + 1]);
      GoScanFrom(s, pos, ps, nm, j + 1, WithLimit(lim, k, v));
      assert ps[j..][0] == ps[j] && ps[j..][1..] == ps[j + 1..];
    }
  }

  /** The number of a written pair is read by `>>` up to the space that follows it. */
  lemma PairNumber(s: string, e: nat, v: int)
    requires INT_MIN <= v <= INT_MAX
    requires e + 1 + |IntToString(v)| <= |s| && s[e] == ' '
    requires s[e + 1..e + 1 + |IntToString(v)|] == IntToString(v)
    requires e + 1 + |IntToString(v)| < |s| ==> s[e + 1 + |IntToString(v)|] == ' '
    ensures ReadInt(s, e) == Read(v, e + 1 + |IntToString(v)|)
  {
    ReadIntOfString(s, e, e + 1, v);
  }

  /** One step of the scan where a keyword is followed by a number that reads. */
  lemma GoScanRead(s: string, a: nat, lim: GoLimits, tok: string, e: nat, k: GoKey, v: int, n: nat)
    requires a <= |s| && NextWord(s, C_SPACE, a) == Word(tok, e) && GoKeyNamed(tok) == Some(k)
    requires e <= |s| && ReadInt(s, e) == Read(v, n)
    ensures n <= |s|
    ensures GoScan(s, a, lim) == GoScan(s, n, WithLimit(lim, k, v))
  {
  }

  /** Where the parts of ` <name> <digits><tail>` sit in `s` from `a`. */
  lemma ArgsLayout(s: string, a: nat, name: string, d: string, tail: string)
    requires a <= |s| && s[a..] == " " + name + " " + d + tail
    ensures a + 2 + |name| + |d| <= |s|
    ensures s[a] == ' ' && s[a + 1..a + 1 + |name|] == name && s[a + 1 + |name|] == ' '
    ensures s[a + 2 + |name|..a + 2 + |name| + |d|] == d
    ensures s[a + 2 + |name| + |d|..] == tail
    ensures |tail| > 0 ==> s[a + 2 + |name| + |d|] == tail[0]
  {
    var t := s[a..];
    assert t[0] == ' ';
    assert t[1..1 + |name|] == name;
    assert t[1 + |name|] == ' ';
    assert t[2 + |name|..2 + |name| + |d|] == d;
    assert t[2 + |name| + |d|..] == tail;
  }

  // ---------------------------------------------------------------------------------------------
  // The opening book gate of `go`
  // ---------------------------------------------------------------------------------------------

  /** The game ply `go` computes from the FEN counters: two plies per full move before this one,
   *  plus one when Black is to move. */
  function GamePly(fullmove: int, stm: Color): (ply: int)
    ensures fullmove >= 1 ==> ply >= 0
  {
    (fullmove - 1) * 2 + (if stm == BLACK then 1 else 0)
  }

  /** The ply determines the counters back: its parity is the side to move and its half is the
   *  number of completed full moves. */
  lemma GamePlyRoundTrip(fullmove: int, stm: Color)
    ensures GamePly(fullmove, stm) % 2 == stm
    ensures GamePly(fullmove, stm) / 2 == fullmove - 1
  {
  }

  /** The formula counts one ply per half-move, provided the full-move number rises after
   *  Black's move: White's ply plus one is Black's, Black's plus one the next White ply. */
  lemma GamePlySteps(fullmove: int)
    ensures GamePly(fullmove, WHITE) + 1 == GamePly(fullmove, BLACK)
    ensures GamePly(fullmove, BLACK) + 1 == GamePly(fullmove + 1, WHITE)
  {
  }

  /** The book is probed only while the book is on and loaded and the game is younger than
   *  `BookMaxPly` plies: a probe from a valid full-move number lies in plies 0 to
   *  `BookMaxPly - 1`. */
  function BookProbed(o: Options, loaded: bool, fullmove: int, stm: Color): (r: bool)
    ensures r ==> o.useBook && loaded
    ensures r && fullmove >= 1 ==> 0 <= GamePly(fullmove, stm) < o.bookMaxPly
  {
    o.useBook && loaded && GamePly(fullmove, stm) < o.bookMaxPly
  }

  /** With `BookMaxPly` 0 the book is never probed from a position a FEN can give. */
  lemma NoBookAtZero(o: Options, loaded: bool, fullmove: int, stm: Color)
    requires o.bookMaxPly == 0 && fullmove >= 1
    ensures !BookProbed(o, loaded, fullmove, stm)
  {
  }

  /** The counters `go` reads after `n` moves replayed by `position`, as the engine keeps them:
   *  `make` flips the side to move and leaves the full-move number alone. */
  function WrittenCounters(fullmove: int, stm: Color, n: nat): (r: (int, Color))
    ensures r.0 == fullmove
    ensures r.1 == if n % 2 == 0 then stm else Other(stm)
    decreases n
  {
    if n == 0 then (fullmove, stm)
    else
      var p := WrittenCounters(fullmove, stm, n - 1);
      OtherSwaps(stm);
      (p.0, Other(p.1))
  }

  /** As written the game ply never passes Black's ply of the loaded full move, however many
   *  moves follow, so a book within `BookMaxPly` of the loaded position is probed for ever. */
  lemma WrittenPlyStalls(o: Options, fullmove: int, stm: Color, n: nat)
    requires o.useBook && GamePly(fullmove, BLACK) < o.bookMaxPly
    ensures GamePly(WrittenCounters(fullmove, stm, n).0, WrittenCounters(fullmove, stm, n).1)
            <= GamePly(fullmove, BLACK)
    ensures BookProbed(o, true, WrittenCounters(fullmove, stm, n).0, WrittenCounters(fullmove, stm, n).1)
  {
  }

  /** `position startpos moves e2e4 e7e5` with `BookMaxPly` 2: the engine still reads ply 0 and
   *  probes the book, where the game is at ply 2 and the book is closed. */
  lemma BookPastMaxPly()
    ensures var o := ADVERTISED.(bookMaxPly := 2);
      && WrittenCounters(1, WHITE, 2) == (1, WHITE) && BookProbed(o, true, 1, WHITE)
      && CountedCounters(1, WHITE, 2) == (2, WHITE) && !BookProbed(o, true, 2, WHITE)
  {
  }

  /** The counters after `n` moves when the full-move number rises after each Black move, as
   *  the FEN counters are defined. */
  function CountedCounters(fullmove: int, stm: Color, n: nat): (r: (int, Color))
    ensures r.0 >= fullmove
    decreases n
  {
    if n == 0 then (fullmove, stm)
    else
      var p := CountedCounters(fullmove, stm, n - 1);
      if p.1 == BLACK then (p.0 + 1, WHITE) else (p.0, BLACK)
  }

  /** With counted full moves every replayed move adds exactly one game ply. */
  lemma {:induction false} CountedPlyAdvances(fullmove: int, stm: Color, n: nat)
    ensures GamePly(CountedCounters(fullmove, stm, n).0, CountedCounters(fullmove, stm, n).1)
            == GamePly(fullmove, stm) + n
    decreases n
  {
    if n > 0 {
      CountedPlyAdvances(fullmove, stm, n - 1);
      var p := CountedCounters(fullmove, stm, n - 1);
      GamePlySteps(p.0);
    }
  }

  /** The corrected gate closes: from any loaded counters the book is no longer probed once
   *  `BookMaxPly` moves have been replayed. */
  lemma BookClosesCounted(o: Options, loaded: bool, fullmove: int, stm: Color, n: nat)
    requires fullmove >= 1 && n >= o.bookMaxPly
    ensures !BookProbed(o, loaded, CountedCounters(fullmove, stm, n).0, CountedCounters(fullmove, stm, n).1)
  {
    CountedPlyAdvances(fullmove, stm, n);
  }
}
