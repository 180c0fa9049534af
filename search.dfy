/** The pure helpers and bookkeeping of search.cpp: the tablebase score of a WDL verdict, the
 *  integer clamp, the per-thread move-ordering tables (cleared, decayed and resized with the
 *  thread count), the repetition test along the search line and the game history, the cheap
 *  move-ordering score, and the hard and soft time limits derived from a base budget. The
 *  alpha-beta search itself is not part of this module. */
module Search {
  import opened Types
  import opened Moves
  import Eval

  // ---------------------------------------------------------------------------------------------
  // wdl_to_score and clampi
  // ---------------------------------------------------------------------------------------------

  /** `wdl_to_score`: a tablebase verdict (0 loss, 1 blessed loss, 2 draw, 3 cursed win, 4 win)
   *  as a search score `ply` plies from the root. Wins shrink and losses grow with the distance,
   *  so a nearer win scores higher; any value other than 1..4 is read as a loss. */
  function WdlToScore(wdl: int, ply: int): (score: int)
    ensures wdl == 2 ==> score == 0
    ensures wdl == 4 || wdl == 3 ==> (score > 0 <==> ply < 9000 + (wdl - 3) * 1000)
    ensures wdl != 2 && wdl != 3 && wdl != 4 ==> (score < 0 <==> ply < 9000 + (if wdl == 1 then 0 else 1000))
  {
    if wdl == 4 then 10000 - ply
    else if wdl == 3 then 9000 - ply
    else if wdl == 2 then 0
    else if wdl == 1 then -9000 + ply
    else -10000 + ply
  }

  /** Seen from the other side a verdict turns into its mirror image (win and loss, cursed win and
   *  blessed loss swap, a draw stays) and the score is negated. */
  lemma WdlMirror(wdl: int, ply: int)
    requires 0 <= wdl <= 4
    ensures WdlToScore(4 - wdl, ply) == -WdlToScore(wdl, ply)
  {
  }

  /** Within 1000 plies of the root the five verdicts are strictly ordered: a loss below a blessed
   *  loss below a draw below a cursed win below a win. */
  lemma WdlOrdered(w1: int, w2: int, ply: int)
    requires 0 <= w1 < w2 <= 4 && 0 <= ply < 1000
    ensures WdlToScore(w1, ply) < WdlToScore(w2, ply)
  {
  }

  /** `clampi`. */
  function Clampi(x: int, lo: int, hi: int): (r: int)
    ensures lo <= hi ==> lo <= r <= hi
    ensures lo <= x <= hi ==> r == x
    ensures x < lo ==> r == lo
    ensures lo <= hi < x ==> r == hi
  {
    if x < lo then lo else if x > hi then hi else x
  }

  /** Clamping twice into the same range is clamping once, and clamping keeps order. */
  lemma ClampiIdempotentMonotone(x: int, y: int, lo: int, hi: int)
    requires lo <= hi
    ensures Clampi(Clampi(x, lo, hi), lo, hi) == Clampi(x, lo, hi)
    ensures x <= y ==> Clampi(x, lo, hi) <= Clampi(y, lo, hi)
  {
  }

  // ---------------------------------------------------------------------------------------------
  // Heuristics tables
  // ---------------------------------------------------------------------------------------------

  /** `h - (h >> 4)`. An arithmetic right shift by four is floor division by 16, which is Dafny's
   *  `/` for a positive divisor. */
  function Decayed(h: int): (r: int)
    ensures 0 <= h ==> 0 <= r <= h
    ensures h < 0 ==> h < r <= 0
  {
    h - h / 16
  }

  /** Decay moves every entry towards zero and never past it; zero stays zero, and an entry is left
   *  unchanged exactly when it is one of 0..15 (its shift is zero). */
  lemma DecayedFixedPoints(h: int)
    ensures Decayed(h) == h <==> 0 <= h < 16
    ensures h >= 16 ==> Decayed(h) < h
    ensures h <= -1 ==> Decayed(h) > h
  {
  }

  // Flattened, row-major layouts of the C++ tables (element [a][b][c] of T[A][B][C] sits at
  // a*B*C + b*C + c).
  const HISTORY_SIZE: nat := 2 * 64 * 64
  const CONT_SIZE: nat := 2 * 6 * 64 * 6 * 64
  const CAPTURE_SIZE: nat := 6 * 64 * 6

  /** `history[s][f][t]` and `countermove[s][f][t]`. */
  function HistSlot(s: Color, f: int, t: int): (i: int)
    requires 0 <= f < 64 && 0 <= t < 64
    ensures 0 <= i < HISTORY_SIZE
  {
    s * 4096 + f * 64 + t
  }

  /** `contHist[s][pp][pto][p][to]`. */
  function ContSlot(s: Color, pp: int, pto: int, p: int, to: int): (i: int)
    requires 0 <= pp < 6 && 0 <= pto < 64 && 0 <= p < 6 && 0 <= to < 64
    ensures 0 <= i < CONT_SIZE
  {
    s * 147456 + pp * 24576 + pto * 384 + p * 64 + to
  }

  /** `captureHist[p][to][v]`, for any `v` whose flat offset stays inside the table (the source
   *  reads it with `v == NO_PIECE` too; see `QuietPromotionReadsNeighbour`). */
  function CapSlot(p: int, to: int, v: int): int
  {
    p * 384 + to * 6 + v
  }

  /** Within its declared bounds every capture-history index is one entry of the table, and
   *  different index triples are different entries. */
  lemma CapSlotLayout(p: int, to: int, v: int, p2: int, to2: int, v2: int)
    requires 0 <= p < 6 && 0 <= to < 64 && 0 <= v < 6
    requires 0 <= p2 < 6 && 0 <= to2 < 64 && 0 <= v2 < 6
    ensures 0 <= CapSlot(p, to, v) < CAPTURE_SIZE
    ensures CapSlot(p, to, v) == CapSlot(p2, to2, v2) ==> p == p2 && to == to2 && v == v2
  {
    if CapSlot(p, to, v) == CapSlot(p2, to2, v2) {
      assert (to * 6 + v) + 384 * p == (to2 * 6 + v2) + 384 * p2;
      assert p == p2;
      assert to == to2;
    }
  }

  /** `Searcher::Heuristics`: one thread's killer, history, countermove, continuation-history and
   *  capture-history tables. */
  class Heuristics {
    const maxPly: nat
    /** `killers[ply][k]` at `ply * 2 + k`. */
    const killers: array<Move>
    const history: array<int>
    const countermove: array<Move>
    const contHist: array<int>
    const captureHist: array<int>

    ghost function Repr(): set<object>
    {
      {killers as object, history as object, countermove as object, contHist as object, captureHist as object}
    }

    ghost predicate Valid()
    {
      && killers.Length == 2 * maxPly
      && history.Length == HISTORY_SIZE
      && countermove.Length == HISTORY_SIZE
      && contHist.Length == CONT_SIZE
      && captureHist.Length == CAPTURE_SIZE
      && killers != countermove
      && history != contHist && history != captureHist && contHist != captureHist
    }

    /** Every entry of every table is zero. */
    ghost predicate Zeroed()
      reads Repr()
    {
      && (forall i :: 0 <= i < killers.Length ==> killers[i] == 0)
      && (forall i :: 0 <= i < history.Length ==> history[i] == 0)
      && (forall i :: 0 <= i < countermove.Length ==> countermove[i] == 0)
      && (forall i :: 0 <= i < contHist.Length ==> contHist[i] == 0)
      && (forall i :: 0 <= i < captureHist.Length ==> captureHist[i] == 0)
    }

    /** A value-initialised entry, as `resize` creates it. */
    constructor (maxPly: nat)
      ensures Valid() && Zeroed() && this.maxPly == maxPly
      ensures fresh(Repr())
    {
      this.maxPly := maxPly;
      killers := new Move[2 * maxPly](_ => 0);
      history := new int[HISTORY_SIZE](_ => 0);
      countermove := new Move[HISTORY_SIZE](_ => 0);
      contHist := new int[CONT_SIZE](_ => 0);
      captureHist := new int[CAPTURE_SIZE](_ => 0);
    }

    /** `clear`: every table filled with zeros. */
    method Clear()
      requires Valid()
      modifies Repr()
      ensures Zeroed()
    {
      forall i | 0 <= i < killers.Length {
        killers[i] := 0;
      }
      forall i | 0 <= i < history.Length {
        history[i] := 0;
      }
      forall i | 0 <= i < countermove.Length {
        countermove[i] := 0;
      }
      forall i | 0 <= i < contHist.Length {
        contHist[i] := 0;
      }
      forall i | 0 <= i < captureHist.Length {
        captureHist[i] := 0;
      }
    }

    /** `decay`: every history, continuation-history and capture-history entry h becomes
     *  `h - (h >> 4)`; killers and countermoves are untouched. */
    method Decay()
      requires Valid()
      modifies history, contHist, captureHist
      ensures forall i :: 0 <= i < history.Length ==> history[i] == Decayed(old(history[i]))
      ensures forall i :: 0 <= i < contHist.Length ==> contHist[i] == Decayed(old(contHist[i]))
      ensures forall i :: 0 <= i < captureHist.Length ==> captureHist[i] == Decayed(old(captureHist[i]))
      ensures old(Zeroed()) ==> Zeroed()
    {
      DecayTable(history);
      DecayTable(contHist);
      DecayTable(captureHist);
    }
  }

  /** One table of `decay`: the nested loops of the source visit the flattened table in index
   *  order, one entry at a time. */
  method DecayTable(a: array<int>)
    modifies a
    ensures forall i :: 0 <= i < a.Length ==> a[i] == Decayed(old(a[i]))
  {
    var i := 0;
    while i < a.Length
      invariant 0 <= i <= a.Length
      invariant forall j :: 0 <= j < i ==> a[j] == Decayed(old(a[j]))
      invariant forall j :: i <= j < a.Length ==> a[j] == old(a[j])
    {
      a[i] := a[i] - a[i] / 16;
      i := i + 1;
    }
  }

  /** Distinct entries own disjoint tables. */
  ghost predicate Separate(hs: seq<Heuristics>)
  {
    forall i, j :: 0 <= i < j < |hs| ==> hs[i].Repr() !! hs[j].Repr()
  }

  /** Every table of every entry. */
  ghost function Tables(hs: seq<Heuristics>): set<object>
  {
    set i, a | 0 <= i < |hs| && a in hs[i].Repr() :: a
  }

  /** The part of `Searcher` that owns the per-thread tables. */
  class Searcher {
    const maxPly: nat
    var threads: int
    /** `heurByThread`. */
    var heur: seq<Heuristics>

    ghost predicate Tidy()
      reads this
    {
      && (forall i :: 0 <= i < |heur| ==> heur[i].Valid() && heur[i].maxPly == maxPly)
      && Separate(heur)
    }

    ghost predicate Valid()
      reads this
    {
      Tidy() && 1 <= threads <= 64 && |heur| == threads
    }

    /** `Searcher()`: one thread, with clean tables. */
    constructor (maxPly: nat)
      ensures Valid() && threads == 1
      ensures heur[0].Zeroed()
    {
      this.maxPly := maxPly;
      threads := 0;
      heur := [];
      new;
      SetThreads(1);
    }

    /** `set_threads`: the count is clamped to 1..64, the table list is cut or grown to that
     *  length (kept entries stay, new ones are fresh) and every entry is cleared. */
    method SetThreads(n: int)
      requires Tidy()
      modifies this, Tables(heur)
      ensures Valid()
      ensures threads == Clampi(n, 1, 64)
      ensures forall i :: 0 <= i < |old(heur)| && i < threads ==> heur[i] == old(heur)[i]
      ensures forall i :: |old(heur)| <= i < threads ==> fresh(heur[i])
      ensures forall i :: 0 <= i < |heur| ==> heur[i].Zeroed()
    {
      var t := if n < 1 then 1 else if n > 64 then 64 else n;
      threads := t;
      var keep := if |heur| < t then |heur| else t;
      PrefixTables(heur, keep);
      var hs := Grown(heur[..keep], t, maxPly);
      ClearAll(hs);
      heur := hs;
    }
  }

  /** A prefix keeps the separation and owns a part of the tables. */
  lemma PrefixTables(hs: seq<Heuristics>, k: int)
    requires 0 <= k <= |hs| && Separate(hs)
    ensures Separate(hs[..k]) && Tables(hs[..k]) <= Tables(hs)
  {
    forall a | a in Tables(hs[..k])
      ensures a in Tables(hs)
    {
      var i :| 0 <= i < k && a in hs[..k][i].Repr();
      assert hs[..k][i] == hs[i];
    }
  }

  /** `resize` growing the list: fresh clean entries are appended up to length `t`. */
  method Grown(hs: seq<Heuristics>, t: int, maxPly: nat) returns (r: seq<Heuristics>)
    requires |hs| <= t
    requires forall i :: 0 <= i < |hs| ==> hs[i].Valid() && hs[i].maxPly == maxPly
    requires Separate(hs)
    ensures |r| == t && r[..|hs|] == hs
    ensures forall i :: 0 <= i < |r| ==> r[i].Valid() && r[i].maxPly == maxPly
    ensures forall i :: |hs| <= i < |r| ==> fresh(r[i]) && fresh(r[i].Repr())
    ensures Separate(r)
  {
    r := hs;
    while |r| < t
      invariant |hs| <= |r| <= t
      invariant r[..|hs|] == hs
      invariant forall i :: 0 <= i < |r| ==> r[i].Valid() && r[i].maxPly == maxPly
      invariant forall i :: |hs| <= i < |r| ==> fresh(r[i]) && fresh(r[i].Repr())
      invariant Separate(r)
    {
      var h := new Heuristics(maxPly);
      r := r + [h];
    }
  }

  /** The `clear` loop of `set_threads`: every entry ends zeroed. */
  method ClearAll(hs: seq<Heuristics>)
    requires forall j :: 0 <= j < |hs| ==> hs[j].Valid()
    requires Separate(hs)
    modifies Tables(hs)
    ensures forall j :: 0 <= j < |hs| ==> hs[j].Zeroed()
  {
    var i := 0;
    while i < |hs|
      invariant 0 <= i <= |hs|
      invariant forall j :: 0 <= j < i ==> hs[j].Zeroed()
    {
      assert hs[i].Repr() <= Tables(hs);
      ClearOne(hs, i);
      i := i + 1;
    }
  }

  /** Clearing entry `i` leaves the other entries' tables as they were. */
  method ClearOne(hs: seq<Heuristics>, i: int)
    requires 0 <= i < |hs|
    requires forall j :: 0 <= j < |hs| ==> hs[j].Valid()
    requires Separate(hs)
    modifies hs[i].Repr()
    ensures hs[i].Zeroed()
    ensures forall j :: 0 <= j < |hs| && j != i ==> unchanged(hs[j].Repr())
  {
    hs[i].Clear();
  }

  // ---------------------------------------------------------------------------------------------
  // repetition_draw
  // ---------------------------------------------------------------------------------------------

  /** How many of `ks[i], ks[i - 2], ks[i - 4], ...` equal `key`: the earlier positions of the
   *  search line with the same side to move. */
  function StackHits(ks: seq<int>, key: int, i: int): nat
    requires i < |ks|
    decreases i + 2
  {
    if i < 0 then 0 else (if ks[i] == key then 1 else 0) + StackHits(ks, key, i - 2)
  }

  /** How many of the first `n` game-history keys equal `key`. */
  function GameHits(gk: seq<int>, key: int, n: int): nat
    requires n <= |gk|
    decreases n
  {
    if n <= 0 then 0 else GameHits(gk, key, n - 1) + (if gk[n - 1] == key then 1 else 0)
  }

  /** The verdict of `repetition_draw`: a 50-move draw, or the current key seen at least three
   *  times counting the node itself, the same-side plies of the search line below it and the game
   *  history before the root (the root's own entry excluded). */
  ghost predicate IsRepetitionDraw(draw50: bool, key: int, keyStack: seq<int>, ply: int,
                                   gameKeys: seq<int>, rootHistoryLen: int)
    requires ply - 2 < |keyStack| && rootHistoryLen - 1 <= |gameKeys|
  {
    draw50 || 1 + StackHits(keyStack, key, ply - 2) + GameHits(gameKeys, key, rootHistoryLen - 1) >= 3
  }

  lemma {:induction false} GameHitsMonotone(gk: seq<int>, key: int, a: int, b: int)
    requires a <= b <= |gk|
    ensures GameHits(gk, key, a) <= GameHits(gk, key, b)
    decreases b - a
  {
    if a < b {
      GameHitsMonotone(gk, key, a, b - 1);
    }
  }

  /** `repetition_draw`, with the position's 50-move verdict, its key, the search line's key stack,
   *  the game history and the history length at the root as inputs. It returns as soon as the
   *  count reaches three; the result is the full count's verdict. */
  method RepetitionDraw(draw50: bool, key: int, keyStack: seq<int>, ply: int,
                        gameKeys: seq<int>, rootHistoryLen: int) returns (draw: bool)
    requires ply - 2 < |keyStack|
    requires rootHistoryLen - 1 <= |gameKeys|
    ensures draw == IsRepetitionDraw(draw50, key, keyStack, ply, gameKeys, rootHistoryLen)
  {
    if draw50 {
      return true;
    }
    var occ := 1;
    var i := ply - 2;
    while i >= 0
      invariant i <= ply - 2
      invariant occ + StackHits(keyStack, key, i) == 1 + StackHits(keyStack, key, ply - 2)
      invariant occ < 3
      decreases i + 2
    {
      if keyStack[i] == key {
        occ := occ + 1;
      }
      if occ >= 3 {
        return true;
      }
      i := i - 2;
    }
    var limit := if rootHistoryLen - 1 > 0 then rootHistoryLen - 1 else 0;
    var j := 0;
    while j < limit
      invariant 0 <= j <= limit
      invariant occ == 1 + StackHits(keyStack, key, ply - 2) + GameHits(gameKeys, key, j)
      invariant occ < 3
    {
      if gameKeys[j] == key {
        occ := occ + 1;
      }
      if occ >= 3 {
        GameHitsMonotone(gameKeys, key, j + 1, rootHistoryLen - 1);
        return true;
      }
      j := j + 1;
    }
    return false;
  }

  /** Keys at an odd distance below the node (the other side to move) never count: overwriting
   *  one does not change the line's tally. */
  lemma {:induction false} OtherSideIgnored(ks: seq<int>, key: int, i: int, j: int, v: int)
    requires i < |ks| && 0 <= j < |ks|
    requires (i - j) % 2 == 1 || j > i
    ensures StackHits(ks[j := v], key, i) == StackHits(ks, key, i)
    decreases i + 2
  {
    if i >= 0 {
      OtherSideIgnored(ks, key, i - 2, j, v);
    }
  }

  /** The same position twice earlier on the line, with the same side to move, is a draw. */
  lemma TwoEarlierIsDraw(key: int, keyStack: seq<int>, ply: int, gameKeys: seq<int>,
                         rootHistoryLen: int, a: int, b: int)
    requires ply - 2 < |keyStack| && rootHistoryLen - 1 <= |gameKeys|
    requires 0 <= b < a <= ply - 2 && (ply - a) % 2 == 0 && (ply - b) % 2 == 0
    requires keyStack[a] == key && keyStack[b] == key
    ensures IsRepetitionDraw(false, key, keyStack, ply, gameKeys, rootHistoryLen)
  {
    StackHitsCounts(keyStack, key, ply - 2, a, b);
  }

  lemma {:induction false} StackHitsCounts(ks: seq<int>, key: int, i: int, a: int, b: int)
    requires i < |ks| && 0 <= b < a <= i && (i - a) % 2 == 0 && (i - b) % 2 == 0
    requires ks[a] == key && ks[b] == key
    ensures StackHits(ks, key, i) >= 2
    decreases i + 2
  {
    if i == a {
      StackHitsSees(ks, key, i - 2, b);
    } else {
      StackHitsCounts(ks, key, i - 2, a, b);
    }
  }

  lemma {:induction false} StackHitsSees(ks: seq<int>, key: int, i: int, b: int)
    requires i < |ks| && 0 <= b <= i && (i - b) % 2 == 0 && ks[b] == key
    ensures StackHits(ks, key, i) >= 1
    decreases i + 2
  {
    if i != b {
      StackHitsSees(ks, key, i - 2, b);
    }
  }

  /** With no 50-move draw, a key that occurs nowhere earlier is never a repetition. */
  lemma FreshKeyNoDraw(key: int, keyStack: seq<int>, ply: int, gameKeys: seq<int>, rootHistoryLen: int)
    requires ply - 2 < |keyStack| && rootHistoryLen - 1 <= |gameKeys|
    requires key !in keyStack && key !in gameKeys
    ensures !IsRepetitionDraw(false, key, keyStack, ply, gameKeys, rootHistoryLen)
  {
    StackHitsNone(keyStack, key, ply - 2);
    GameHitsNone(gameKeys, key, rootHistoryLen - 1);
  }

  lemma {:induction false} StackHitsNone(ks: seq<int>, key: int, i: int)
    requires i < |ks| && key !in ks
    ensures StackHits(ks, key, i) == 0
    decreases i + 2
  {
    if i >= 0 {
      StackHitsNone(ks, key, i - 2);
    }
  }

  lemma {:induction false} GameHitsNone(gk: seq<int>, key: int, n: int)
    requires n <= |gk| && key !in gk
    ensures GameHits(gk, key, n) == 0
    decreases n
  {
    if n > 0 {
      GameHitsNone(gk, key, n - 1);
    }
  }

  // ---------------------------------------------------------------------------------------------
  // move_score_basic
  // ---------------------------------------------------------------------------------------------

  /** `is_capture`: a captured piece is recorded, or the move is en passant. */
  predicate IsCapture(m: Move)
  {
    MoveCap(m) != NO_PIECE || HasFlag(MoveFlags(m), MF_EP)
  }

  /** `is_promo`. */
  predicate IsPromo(m: Move)
  {
    HasFlag(MoveFlags(m), MF_PROMO)
  }

  /** The victim of `move_score_basic`: a pawn for en passant, else the recorded capture (which is
   *  `NO_PIECE` on a quiet promotion). */
  function Victim(m: Move): (v: int)
    ensures MoveCap(m) <= NO_PIECE ==> 0 <= v <= NO_PIECE
    ensures HasFlag(MoveFlags(m), MF_EP) ==> v == PAWN
  {
    if HasFlag(MoveFlags(m), MF_EP) then PAWN else MoveCap(m)
  }

  /** What `move_score_basic` needs to stay inside its tables: a side to move, a ply below
   *  `MAX_PLY`, real piece fields, and a capture-history read that lands inside the table. */
  ghost predicate Scorable(h: Heuristics, m: Move, prevMove: Move, ply: int)
  {
    && h.Valid()
    && 0 <= ply < h.maxPly
    && MovePiece(m) < 6 && MoveCap(m) <= NO_PIECE
    && (prevMove != 0 ==> MovePiece(prevMove) < 6)
    && ((IsCapture(m) || IsPromo(m)) ==> CapSlot(MovePiece(m), MoveTo(m), Victim(m)) < CAPTURE_SIZE)
  }

  /** The capture-and-promotion band of `move_score_basic`: MVV-LVA, four times the capture
   *  history, the promotion bonus and the recapture bonus. */
  function CaptureScore(h: Heuristics, m: Move, prevMove: Move, capHist: int): int
  {
    5_000_000 + 1000 * (Victim(m) + 1) - MovePiece(m)
    + capHist * 4
    + (if IsPromo(m) then 400_000 + 50_000 * MovePromo(m) else 0)
    + (if prevMove != 0 && IsCapture(prevMove) && MoveTo(m) == MoveTo(prevMove) then 60_000 else 0)
  }

  /** `move_score_basic`, as written: a quiet promotion (victim `NO_PIECE`) reads the capture
   *  history one past its innermost dimension. */
  function MoveScoreBasic(h: Heuristics, stm: Color, m: Move, ttMove: Move, prevMove: Move, ply: int): int
    requires Scorable(h, m, prevMove, ply)
    reads h.Repr()
  {
    if m == ttMove then 10_000_000
    else if IsCapture(m) || IsPromo(m) then
      CaptureScore(h, m, prevMove, h.captureHist[CapSlot(MovePiece(m), MoveTo(m), Victim(m))])
    else QuietScore(h, stm, m, prevMove, ply)
  }

  /** The quiet band: killers, then the countermove, then history plus half the continuation
   *  history (C++ division truncates toward zero). */
  function QuietScore(h: Heuristics, stm: Color, m: Move, prevMove: Move, ply: int): int
    requires Scorable(h, m, prevMove, ply)
    reads h.Repr()
  {
    if m == h.killers[ply * 2] then 4_000_000
    else if m == h.killers[ply * 2 + 1] then 3_900_000
    else if prevMove != 0 && m == h.countermove[HistSlot(stm, MoveFrom(prevMove), MoveTo(prevMove))] then 3_800_000
    else
      h.history[HistSlot(stm, MoveFrom(m), MoveTo(m))]
      + (if prevMove != 0
         then Eval.CDiv(h.contHist[ContSlot(stm, MovePiece(prevMove), MoveTo(prevMove), MovePiece(m), MoveTo(m))], 2)
         else 0)
  }

  /** Every history, continuation-history and capture-history entry lies within `-b..b`. */
  ghost predicate Bounded(h: Heuristics, b: int)
    reads h.Repr()
  {
    && (forall i :: 0 <= i < h.history.Length ==> -b <= h.history[i] <= b)
    && (forall i :: 0 <= i < h.contHist.Length ==> -b <= h.contHist[i] <= b)
    && (forall i :: 0 <= i < h.captureHist.Length ==> -b <= h.captureHist[i] <= b)
  }

  /** The ordering bands promised by `move_score_basic` while the learned tables stay within
   *  100,000: the TT move first, then every capture or promotion, then the first killer, the
   *  second killer and the countermove, then every other quiet move. */
  lemma ScoreBands(h: Heuristics, stm: Color, m: Move, ttMove: Move, prevMove: Move, ply: int)
    requires Scorable(h, m, prevMove, ply) && Bounded(h, 100_000)
    requires IsPromo(m) ==> MovePromo(m) <= QUEEN
    ensures m == ttMove ==> MoveScoreBasic(h, stm, m, ttMove, prevMove, ply) == 10_000_000
    ensures m != ttMove && (IsCapture(m) || IsPromo(m)) ==>
      4_500_000 < MoveScoreBasic(h, stm, m, ttMove, prevMove, ply) < 10_000_000
    ensures m != ttMove && !(IsCapture(m) || IsPromo(m)) ==>
      MoveScoreBasic(h, stm, m, ttMove, prevMove, ply) <= 4_000_000
    ensures (m != ttMove && !(IsCapture(m) || IsPromo(m)) && m != h.killers[ply * 2]) ==>
      MoveScoreBasic(h, stm, m, ttMove, prevMove, ply) <= 3_900_000
    ensures (m != ttMove && !(IsCapture(m) || IsPromo(m)) && m != h.killers[ply * 2]
             && m != h.killers[ply * 2 + 1]) ==>
      MoveScoreBasic(h, stm, m, ttMove, prevMove, ply) <= 3_800_000
    ensures (m != ttMove && !(IsCapture(m) || IsPromo(m)) && m != h.killers[ply * 2]
             && m != h.killers[ply * 2 + 1]
             && (prevMove == 0 || m != h.countermove[HistSlot(stm, MoveFrom(prevMove), MoveTo(prevMove))])) ==>
      -150_000 <= MoveScoreBasic(h, stm, m, ttMove, prevMove, ply) <= 150_000
  {
    if m != ttMove && (IsCapture(m) || IsPromo(m)) {
      var c := h.captureHist[CapSlot(MovePiece(m), MoveTo(m), Victim(m))];
      assert -100_000 <= c <= 100_000;
    } else if m != ttMove && prevMove != 0 {
      var x := h.contHist[ContSlot(stm, MovePiece(prevMove), MoveTo(prevMove), MovePiece(m), MoveTo(m))];
      assert -100_000 <= x <= 100_000;
      assert -100_000 <= h.history[HistSlot(stm, MoveFrom(m), MoveTo(m))] <= 100_000;
      Eval.CDivBounds(x, 2);
    } else if m != ttMove {
      assert -100_000 <= h.history[HistSlot(stm, MoveFrom(m), MoveTo(m))] <= 100_000;
    }
  }

  /** MVV-LVA: between two plain captures with no capture history and no recapture bonus, the more
   *  valuable victim comes first, and for the same victim the cheaper attacker. */
  lemma MvvLva(h: Heuristics, stm: Color, m1: Move, m2: Move, ttMove: Move, prevMove: Move, ply: int)
    requires Scorable(h, m1, prevMove, ply) && Scorable(h, m2, prevMove, ply)
    requires m1 != ttMove && m2 != ttMove
    requires IsCapture(m1) && !IsPromo(m1) && IsCapture(m2) && !IsPromo(m2)
    requires h.captureHist[CapSlot(MovePiece(m1), MoveTo(m1), Victim(m1))] == 0
    requires h.captureHist[CapSlot(MovePiece(m2), MoveTo(m2), Victim(m2))] == 0
    requires prevMove == 0 || !IsCapture(prevMove) || (MoveTo(m1) != MoveTo(prevMove) && MoveTo(m2) != MoveTo(prevMove))
    ensures Victim(m1) > Victim(m2) ==>
      MoveScoreBasic(h, stm, m1, ttMove, prevMove, ply) > MoveScoreBasic(h, stm, m2, ttMove, prevMove, ply)
    ensures Victim(m1) == Victim(m2) && MovePiece(m1) < MovePiece(m2) ==>
      MoveScoreBasic(h, stm, m1, ttMove, prevMove, ply) > MoveScoreBasic(h, stm, m2, ttMove, prevMove, ply)
  {
  }

  /** A quiet promotion has victim `NO_PIECE`, so its capture-history index `[PAWN][to][6]` is the
   *  flat slot of `[PAWN][to + 1][PAWN]`: the score picks up the learned value of a pawn capturing
   *  a pawn on the next square. */
  lemma QuietPromotionReadsNeighbour(h: Heuristics, stm: Color, m: Move, ttMove: Move, prevMove: Move, ply: int)
    requires Scorable(h, m, prevMove, ply)
    requires m != ttMove && IsPromo(m) && MovePiece(m) == PAWN && MoveCap(m) == NO_PIECE
    requires !HasFlag(MoveFlags(m), MF_EP) && MoveTo(m) < 63
    ensures CapSlot(PAWN, MoveTo(m), Victim(m)) == CapSlot(PAWN, MoveTo(m) + 1, PAWN)
    ensures MoveScoreBasic(h, stm, m, ttMove, prevMove, ply)
         == CaptureScore(h, m, prevMove, 0) + 4 * h.captureHist[CapSlot(PAWN, MoveTo(m) + 1, PAWN)]
  {
  }

  /** `move_score_basic` with the capture-history term read only for a real victim (0..5). */
  function MoveScoreCorrected(h: Heuristics, stm: Color, m: Move, ttMove: Move, prevMove: Move, ply: int): int
    requires Scorable(h, m, prevMove, ply)
    reads h.Repr()
  {
    if m == ttMove then 10_000_000
    else if IsCapture(m) || IsPromo(m) then
      CaptureScore(h, m, prevMove,
        if Victim(m) < 6 then h.captureHist[CapSlot(MovePiece(m), MoveTo(m), Victim(m))] else 0)
    else QuietScore(h, stm, m, prevMove, ply)
  }

  /** The corrected score reads the capture history only at the move's own (attacker, square,
   *  victim) entry: changing any other entry leaves it unchanged, and it agrees with the source
   *  on every move except a quiet promotion. */
  lemma CorrectedReadsOwnEntry(h: Heuristics, stm: Color, m: Move, ttMove: Move, prevMove: Move, ply: int)
    requires Scorable(h, m, prevMove, ply)
    ensures Victim(m) < 6 ==>
      MoveScoreCorrected(h, stm, m, ttMove, prevMove, ply) == MoveScoreBasic(h, stm, m, ttMove, prevMove, ply)
    ensures m != ttMove && IsPromo(m) && Victim(m) == NO_PIECE ==>
      MoveScoreCorrected(h, stm, m, ttMove, prevMove, ply) == CaptureScore(h, m, prevMove, 0)
  {
  }

  // ---------------------------------------------------------------------------------------------
  // Hard and soft time limits
  // ---------------------------------------------------------------------------------------------

  /** The `(hard, soft)` limits in milliseconds that `go` derives from the base budget and the
   *  move overhead; no budget means no limit (both 0). */
  function TimeLimits(base: int, overhead: int): (r: (int, int))
    ensures base <= 0 ==> r == (0, 0)
    ensures base > 0 ==> 1 <= r.1 <= r.0
    ensures base > 0 ==> r.0 >= base - overhead && (overhead >= 0 ==> r.0 <= base)
    ensures base > 0 ==> r.0 - r.1 <= 1000
  {
    if base > 0 then
      var hard := if base - overhead > 1 then base - overhead else 1;
      var slack := Min(1000, Max(50, hard / 20));
      (hard, Max(1, hard - slack))
    else (0, 0)
  }

  function Min(a: int, b: int): int { if a < b then a else b }
  function Max(a: int, b: int): int { if a > b then a else b }

  /** The soft limit stops strictly before the hard one whenever there is room (hard above 1), by
   *  at least 50 ms once the hard limit exceeds 50 ms and by about a twentieth of it, capped at one
   *  second. */
  lemma SoftBeforeHard(base: int, overhead: int)
    requires base > 0
    ensures TimeLimits(base, overhead).0 >= 2 ==> TimeLimits(base, overhead).1 < TimeLimits(base, overhead).0
    ensures TimeLimits(base, overhead).0 > 50 ==> TimeLimits(base, overhead).0 - TimeLimits(base, overhead).1 >= 50
    ensures TimeLimits(base, overhead).0 - TimeLimits(base, overhead).1 >= Min(1000, TimeLimits(base, overhead).0 / 20)
         || TimeLimits(base, overhead).1 == 1
  {
  }
}
