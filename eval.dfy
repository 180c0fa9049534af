/** The static evaluation helpers of eval.cpp: the rank mirror used to read Black's piece-square
 *  entries, the file masks built once, the passed-pawn test, the per-file pawn penalties, the
 *  rook file bonus, the hanging-piece penalties, the material and game phase count and the
 *  tapered blend of the middlegame and endgame scores. Scores are in centipawns, positive for
 *  White, until the blend turns them to the side to move. */
module Eval {
  import opened Types
  import opened Words
  import opened Bitboards
  import opened PositionSpec

  // ---------------------------------------------------------------- mirror_sq

  /** Xor of an even number with a shifted one keeps the low bit and shifts the rest. */
  lemma XorShift(a: nat, b: nat, x: nat, w: nat, v: nat)
    requires x < 2 && w == 2 * a + x && v == 2 * b
    ensures Xor(w, v) == 2 * Xor(a, b) + x
  {
    if w != 0 && b != 0 {
      assert w / 2 == a && v / 2 == b;
      assert w % 2 == x && v % 2 == 0;
    }
  }

  /** Xor with a multiple of 4 leaves the low two bits alone. */
  lemma XorLow4(a: nat, b: nat, f: nat)
    requires f < 4
    ensures Xor(4 * a + f, 4 * b) == 4 * Xor(a, b) + f
  {
    var h, l := f / 2, f % 2;
    XorShift(2 * a + h, 2 * b, l, 4 * a + f, 4 * b);
    XorShift(a, b, h, 2 * a + h, 2 * b);
  }

  /** Xor with a multiple of 8 leaves the low three bits alone. */
  lemma XorLow8(a: nat, b: nat, f: nat)
    requires f < 8
    ensures Xor(8 * a + f, 8 * b) == 8 * Xor(a, b) + f
  {
    var h, l := f / 2, f % 2;
    XorShift(4 * a + h, 4 * b, l, 8 * a + f, 8 * b);
    XorLow4(a, b, h);
  }

  /** Xor with 7 counts a rank from the other end. */
  lemma XorSeven(r: nat)
    requires r < 8
    ensures Xor(r, 7) == 7 - r
  {
    if r == 0 { } else if r == 1 { } else if r == 2 { } else if r == 3 { }
    else if r == 4 { } else if r == 5 { } else if r == 6 { } else { }
  }

  /** `mirror_sq`: `sq ^ 56`, the square on the same file and the opposite rank. */
  function MirrorSq(sq: Square): (r: Square)
    ensures FileOf(r) == FileOf(sq) && RankOf(r) == 7 - RankOf(sq)
  {
    var rank, file := RankOf(sq), FileOf(sq);
    XorLow8(rank, 7, file);
    XorSeven(rank);
    Xor(sq, 56)
  }

  /** Mirroring twice gives the square back. */
  lemma MirrorInvolution(sq: Square)
    ensures MirrorSq(MirrorSq(sq)) == sq
  {
    FileRankOfSquare(sq);
    FileRankOfSquare(MirrorSq(MirrorSq(sq)));
  }

  // ---------------------------------------------------------------- pawn_rank_from_side

  /** `pawn_rank_from_side`: how far a pawn of `c` has come, counted from its own side. */
  function PawnRankFromSide(c: Color, sq: Square): (r: int)
    ensures 0 <= r < 8
  {
    FileRankOfSquare(sq);
    if c == WHITE then RankOf(sq) else 7 - RankOf(sq)
  }

  /** A black pawn has come as far as a white pawn on the mirrored square, and a white pawn
   *  counts its rank as it stands. */
  lemma PawnRankMirror(sq: Square)
    ensures PawnRankFromSide(BLACK, MirrorSq(sq)) == PawnRankFromSide(WHITE, sq)
    ensures PawnRankFromSide(WHITE, sq) == RankOf(sq)
  {
  }

  // ---------------------------------------------------------------- squares by file

  /** The squares of file `f`. */
  ghost function FileSet(f: int): set<Square>
  {
    set s: Square | FileOf(s) == f
  }

  /** The squares of file `f` on the ranks below `n`. */
  ghost function FileBelow(f: int, n: int): set<Square>
  {
    set s: Square | FileOf(s) == f && RankOf(s) < n
  }

  /** The squares of the files beside `f`. */
  ghost function AdjSet(f: int): set<Square>
  {
    set s: Square | FileOf(s) == f - 1 || FileOf(s) == f + 1
  }

  /** What `init_masks_once` leaves in `ADJ_FILE_MASK[f]`: the file to the left only, because
   *  the file to the right has not been filled yet when it is read. */
  ghost function AdjAsWritten(f: int): set<Square>
  {
    if f > 0 then FileSet(f - 1) else {}
  }

  lemma FileBelowStep(f: int, r: int)
    requires 0 <= f < 8 && 0 <= r < 8
    ensures FileBelow(f, r + 1) == FileBelow(f, r) + {8 * r + f}
  {
    forall s: Square ensures s in FileBelow(f, r + 1) <==> s in FileBelow(f, r) || s == 8 * r + f {
      FileRankOfSquare(s);
    }
  }

  lemma FileBelowAll(f: int)
    ensures FileBelow(f, 8) == FileSet(f)
  {
    forall s: Square ensures RankOf(s) < 8 {
      FileRankOfSquare(s);
    }
  }

  /** The neighbours of `f` are the file to its left, if any, and the file to its right, if
   *  any. */
  lemma AdjSetParts(f: int)
    requires 0 <= f < 8
    ensures AdjSet(f) == (if f > 0 then FileSet(f - 1) else {}) + (if f < 7 then FileSet(f + 1) else {})
  {
  }

  // ---------------------------------------------------------------- the static masks

  /** `FILE_MASK`, `ADJ_FILE_MASK` and `masks_inited`: two static tables of eight boards,
   *  zero until the first call of `init_masks_once` fills them. */
  class Masks {
    const fileMask: array<Bitboard>
    const adjMask: array<Bitboard>
    var inited: bool

    /** Each table entry holds the squares `want` gives for its file. */
    ghost predicate Holds(a: array<Bitboard>, want: int -> set<Square>)
      reads a
    {
      a.Length == 8 && forall f :: 0 <= f < 8 ==> Squares(a[f]) == want(f)
    }

    /** The tables are eight entries long, zero before the first fill and filled as the
     *  source fills them after it. */
    ghost predicate Valid()
      reads this, fileMask, adjMask
    {
      && fileMask.Length == 8 && adjMask.Length == 8 && fileMask != adjMask
      && (!inited ==> fileMask[..] == [0, 0, 0, 0, 0, 0, 0, 0] && adjMask[..] == [0, 0, 0, 0, 0, 0, 0, 0])
      && (inited ==> Holds(fileMask, FileSet) && Holds(adjMask, AdjAsWritten))
    }

    /** Static storage starts zeroed and not yet filled. */
    constructor ()
      ensures Valid() && !inited
    {
      fileMask := new Bitboard[8](_ => 0);
      adjMask := new Bitboard[8](_ => 0);
      inited := false;
    }

    /** The eight squares of file `f`, set one rank at a time. */
    static method FileBoard(f: int) returns (m: Bitboard)
      requires 0 <= f < 8
      ensures Squares(m) == FileSet(f)
    {
      m := 0;
      SquaresZero();
      var r := 0;
      while r < 8
        invariant 0 <= r <= 8
        invariant Squares(m) == FileBelow(f, r)
      {
        m := SetSquare(m, r * 8 + f);
        FileBelowStep(f, r);
        r := r + 1;
      }
      FileBelowAll(f);
    }

    /** The neighbour mask of file `f`: the left entry of `fm` when there is a file to the
     *  left, or-ed with the right entry when there is a file to the right. */
    static method NeighbourBoard(fm: array<Bitboard>, f: int) returns (adj: Bitboard)
      requires fm.Length == 8 && 0 <= f < 8
      ensures Squares(adj) == (if f > 0 then Squares(fm[f - 1]) else {}) + (if f < 7 then Squares(fm[f + 1]) else {})
    {
      adj := 0;
      SquaresZero();
      if f > 0 {
        adj := Union(adj, fm[f - 1]);
      }
      if f < 7 {
        adj := Union(adj, fm[f + 1]);
      }
    }

    /** `init_masks_once`: a no-op once the tables are filled; otherwise each file's mask, and
     *  then its neighbour mask from `FILE_MASK[f-1]` and `FILE_MASK[f+1]`, file by file. The
     *  right neighbour is still zero when it is read, so the neighbour mask holds only the
     *  left file. */
    method InitOnce()
      requires Valid()
      modifies this, fileMask, adjMask
      ensures Valid() && inited
      ensures old(inited) ==> fileMask[..] == old(fileMask[..]) && adjMask[..] == old(adjMask[..])
      ensures Holds(fileMask, FileSet) && Holds(adjMask, AdjAsWritten)
    {
      if inited {
        return;
      }
      inited := true;
      var f := 0;
      while f < 8
        invariant 0 <= f <= 8 && inited
        invariant forall g :: 0 <= g < f ==> Squares(fileMask[g]) == FileSet(g)
        invariant forall g :: 0 <= g < f ==> Squares(adjMask[g]) == AdjAsWritten(g)
        invariant forall g :: f <= g < 8 ==> fileMask[g] == 0
        modifies fileMask, adjMask
      {
        var m := FileBoard(f);
        fileMask[f] := m;
        SquaresZero();
        var adj := NeighbourBoard(fileMask, f);
        adjMask[f] := adj;
        f := f + 1;
      }
    }

    /** The doubled and isolated pawn terms of `eval` for the pawns `myP` of `us`, file by
     *  file, with the neighbour masks as `init_masks_once` leaves them. */
    method PawnFiles(us: Color, myP: Bitboard) returns (mg: int, eg: int)
      requires Valid() && inited
      ensures Score(-mg, -eg) == SignedScore(us, FilesPenalty(FileCounts(Squares(myP)), Isolation(Squares(myP), AdjAsWritten), 8))
    {
      ghost var counts, lone := FileCounts(Squares(myP)), Isolation(Squares(myP), AdjAsWritten);
      mg, eg := 0, 0;
      var f := 0;
      while f < 8
        invariant 0 <= f <= 8
        invariant Score(-mg, -eg) == SignedScore(us, FilesPenalty(counts, lone, f))
      {
        var dmg, deg := FileTerm(us, f, myP);
        assert counts[f] == OnFile(Squares(myP), f) && lone[f] == (Squares(myP) * AdjAsWritten(f) == {});
        FilesAccStep(us, counts, lone, f, mg, eg, dmg, deg);
        mg, eg := mg + dmg, eg + deg;
        f := f + 1;
      }
    }

    /** The body of the pawn-file loop for file `f`: the doubled penalty for every pawn
     *  beyond the first, then the isolated penalty for every pawn when no pawn stands on
     *  the files `ADJ_FILE_MASK[f]` holds. */
    method FileTerm(us: Color, f: int, myP: Bitboard) returns (mg: int, eg: int)
      requires Valid() && inited && 0 <= f < 8
      ensures Score(-mg, -eg) == SignedScore(us, FilePenalty(OnFile(Squares(myP), f), Squares(myP) * AdjAsWritten(f) == {}))
    {
      var n := CountCommon(myP, fileMask[f]);
      mg, eg := 0, 0;
      if n >= 2 {
        var extra := n - 1;
        mg := mg - Signed(us, extra * 12);
        eg := eg - Signed(us, extra * 8);
      }
      var noAdj := Disjoint(myP, adjMask[f]);
      if n >= 1 && noAdj {
        mg := mg - Signed(us, n * 14);
        eg := eg - Signed(us, n * 10);
      }
    }

    /** The body of the rook loop for a rook on file `f`. */
    method RookOnFile(us: Color, f: int, myP: Bitboard, oppP: Bitboard) returns (mg: int, eg: int)
      requires Valid() && inited && 0 <= f < 8
      ensures Score(mg, eg) == SignedScore(us, RookBonus(f, Squares(myP), Squares(oppP)))
    {
      var noMine := Disjoint(myP, fileMask[f]);
      var noTheirs := Disjoint(oppP, fileMask[f]);
      mg, eg := 0, 0;
      if noMine && noTheirs {
        mg := mg + Signed(us, 18);
        eg := eg + Signed(us, 10);
      } else if noMine && !noTheirs {
        mg := mg + Signed(us, 10);
        eg := eg + Signed(us, 6);
      }
    }

    /** The rook file terms of `eval`: each rook of `us`, in `pop_lsb` order, earns the open
     *  or semi-open bonus of its file. */
    method RookFiles(us: Color, myR: Bitboard, myP: Bitboard, oppP: Bitboard) returns (mg: int, eg: int)
      requires Valid() && inited
      ensures Score(mg, eg) == SignedScore(us, RookSum(SquareList(myR), Squares(myP), Squares(oppP)))
    {
      var rooks := myR;
      ghost var done: seq<Square> := [];
      mg, eg := 0, 0;
      while rooks != 0
        invariant done + SquareList(rooks) == SquareList(myR)
        invariant Score(mg, eg) == SignedScore(us, RookSum(done, Squares(myP), Squares(oppP)))
        decreases |SquareList(rooks)|
      {
        var sq, rest := PopLsb(rooks);
        var dmg, deg := RookOnFile(us, FileOf(sq), myP, oppP);
        RookAccStep(us, done, sq, Squares(myP), Squares(oppP), mg, eg, dmg, deg);
        mg, eg := mg + dmg, eg + deg;
        PopStep(done, sq, rooks, rest, SquareList(myR));
        done := done + [sq];
        rooks := rest;
      }
      PopDone(done, rooks, SquareList(myR));
    }

    /** The fill as evidently intended: every file mask first, then the neighbour masks, so
     *  that `ADJ_FILE_MASK[f]` holds both neighbouring files. */
    method InitCorrected()
      requires Valid()
      modifies this, fileMask, adjMask
      ensures inited
      ensures Holds(fileMask, FileSet) && Holds(adjMask, AdjSet)
    {
      inited := true;
      var f := 0;
      while f < 8
        invariant 0 <= f <= 8
        invariant forall g :: 0 <= g < f ==> Squares(fileMask[g]) == FileSet(g)
        modifies fileMask
      {
        var m := FileBoard(f);
        fileMask[f] := m;
        f := f + 1;
      }
      f := 0;
      while f < 8
        invariant 0 <= f <= 8
        invariant forall g :: 0 <= g < f ==> Squares(adjMask[g]) == AdjSet(g)
        modifies adjMask
      {
        var adj := NeighbourBoard(fileMask, f);
        AdjSetParts(f);
        adjMask[f] := adj;
        f := f + 1;
      }
    }
  }

  /** The neighbour mask as written misses the file to the right: on the a-file it is empty,
   *  and on the b-file it leaves out c2. */
  lemma AdjAsWrittenMissesRight(f: int)
    requires 0 <= f < 7
    ensures AdjAsWritten(f) != AdjSet(f)
    ensures f == 0 ==> AdjAsWritten(f) == {}
  {
    var right: Square := f + 1;
    assert FileOf(right) == f + 1;
    assert right in AdjSet(f);
  }

  // ---------------------------------------------------------------- is_passed_pawn

  /** The squares on file `f` and the files beside it, on the ranks from `lo` up to but not
   *  including `hi`. */
  ghost function Band(f: int, lo: int, hi: int): set<Square>
  {
    set s: Square | -1 <= FileOf(s) - f <= 1 && lo <= RankOf(s) < hi
  }

  /** The squares an enemy pawn must not occupy for a pawn of `c` on `sq` to be passed: the
   *  same and the neighbouring files, strictly ahead of the pawn as `c` moves. */
  ghost function FrontSpan(c: Color, sq: Square): set<Square>
  {
    set s: Square | -1 <= FileOf(s) - FileOf(sq) <= 1
      && (if c == WHITE then RankOf(s) > RankOf(sq) else RankOf(s) < RankOf(sq))
  }

  lemma BandEmpty(f: int, lo: int)
    ensures Band(f, lo, lo) == {}
  {
  }

  lemma BandJoin(f: int, a: int, b: int, c: int)
    requires a <= b <= c
    ensures Band(f, a, c) == Band(f, a, b) + Band(f, b, c)
  {
  }

  /** One rank of the band: the square on file `f` and those beside it that exist. */
  lemma RowParts(f: int, rr: int)
    requires 0 <= f < 8 && 0 <= rr < 8
    ensures Band(f, rr, rr + 1)
      == {rr * 8 + f} + (if f > 0 then {rr * 8 + f - 1} else {}) + (if f < 7 then {rr * 8 + f + 1} else {})
  {
    var row := Band(f, rr, rr + 1);
    forall s: Square
      ensures s in row <==> s == rr * 8 + f || (f > 0 && s == rr * 8 + f - 1) || (f < 7 && s == rr * 8 + f + 1)
    {
      FileRankOfSquare(s);
    }
  }

  /** Ahead of a white pawn lie the ranks above it; ahead of a black pawn the ranks below. */
  lemma FrontBand(c: Color, sq: Square)
    ensures FrontSpan(c, sq) == if c == WHITE then Band(FileOf(sq), RankOf(sq) + 1, 8) else Band(FileOf(sq), 0, RankOf(sq))
  {
    forall s: Square ensures 0 <= RankOf(s) < 8 {
      FileRankOfSquare(s);
    }
  }

  /** The body of one `rr` iteration: the square on file `f` of rank `rr` and its neighbours
   *  that exist. */
  method AddRow(front: Bitboard, f: int, rr: int) returns (r: Bitboard)
    requires 0 <= f < 8 && 0 <= rr < 8
    ensures Squares(r) == Squares(front) + Band(f, rr, rr + 1)
  {
    r := SetSquare(front, rr * 8 + f);
    if f > 0 {
      r := SetSquare(r, rr * 8 + (f - 1));
    }
    if f < 7 {
      r := SetSquare(r, rr * 8 + (f + 1));
    }
    RowParts(f, rr);
  }

  /** `is_passed_pawn`: builds the squares ahead of the pawn, rank by rank, and reports whether
   *  no enemy pawn stands on them. */
  method IsPassedPawn(c: Color, sq: Square, oppPawns: Bitboard) returns (passed: bool)
    ensures passed <==> Squares(oppPawns) * FrontSpan(c, sq) == {}
  {
    var f, r := FileOf(sq), RankOf(sq);
    FileRankOfSquare(sq);
    var front: Bitboard := 0;
    SquaresZero();
    if c == WHITE {
      var rr := r + 1;
      BandEmpty(f, rr);
      while rr < 8
        invariant r + 1 <= rr <= 8
        invariant Squares(front) == Band(f, r + 1, rr)
      {
        front := AddRow(front, f, rr);
        BandJoin(f, r + 1, rr, rr + 1);
        rr := rr + 1;
      }
    } else {
      var rr := r - 1;
      BandEmpty(f, r);
      while rr >= 0
        invariant -1 <= rr <= r - 1
        invariant Squares(front) == Band(f, rr + 1, r)
      {
        front := AddRow(front, f, rr);
        BandJoin(f, rr, rr + 1, r);
        rr := rr - 1;
      }
    }
    FrontBand(c, sq);
    passed := Disjoint(oppPawns, front);
  }

  /** The span ahead of a black pawn is the mirror image of the span ahead of a white pawn on
   *  the mirrored square, so both colours are judged alike. */
  lemma FrontSpanMirror(sq: Square, s: Square)
    ensures s in FrontSpan(WHITE, sq) <==> MirrorSq(s) in FrontSpan(BLACK, MirrorSq(sq))
  {
  }

  // ---------------------------------------------------------------- score pairs

  /** A middlegame and an endgame score. */
  datatype Score = Score(mg: int, eg: int)

  function Plus(a: Score, b: Score): Score
  {
    Score(a.mg + b.mg, a.eg + b.eg)
  }

  /** `sign * x` with `sign` +1 for White and -1 for Black. */
  function Signed(c: Color, x: int): (r: int)
    ensures r == if c == WHITE then x else -x
  {
    if c == WHITE then x else -x
  }

  /** `n` times a pair of non-negative scores. */
  function Times(n: nat, a: Score): (r: Score)
    requires a.mg >= 0 && a.eg >= 0
    ensures r.mg >= 0 && r.eg >= 0
  {
    Score(n * a.mg, n * a.eg)
  }

  lemma TimesStep(n: nat, a: Score)
    requires a.mg >= 0 && a.eg >= 0
    ensures Times(n + 1, a) == Plus(Times(n, a), a)
  {
  }

  function SignedScore(c: Color, a: Score): Score
  {
    Score(Signed(c, a.mg), Signed(c, a.eg))
  }

  // ---------------------------------------------------------------- doubled and isolated pawns

  const DOUBLED_PAWN_PEN_MG := 12
  const DOUBLED_PAWN_PEN_EG := 8
  const ISOLATED_PAWN_PEN_MG := 14
  const ISOLATED_PAWN_PEN_EG := 10

  /** The own pawns on file `f`. */
  ghost function OnFile(P: set<Square>, f: int): nat
  {
    |P * FileSet(f)|
  }

  /** The number of own pawns on each file. */
  ghost function FileCounts(P: set<Square>): (counts: seq<nat>)
    ensures |counts| == 8
  {
    seq(8, f => OnFile(P, f))
  }

  /** For each file, whether the neighbour mask `adj(f)` finds no own pawn. */
  ghost function Isolation(P: set<Square>, adj: int -> set<Square>): (lone: seq<bool>)
    ensures |lone| == 8
  {
    seq(8, f => P * adj(f) == {})
  }

  /** The penalty of one file holding `n` own pawns: `n - 1` times the doubled penalty when
   *  `n >= 2`, plus `n` times the isolated penalty when `lone` says the neighbours hold no
   *  own pawn. */
  function FilePenalty(n: nat, lone: bool): (pen: Score)
    ensures pen.mg >= 0 && pen.eg >= 0
    ensures n == 0 || (n == 1 && !lone) ==> pen == Score(0, 0)
  {
    var doubled := if n >= 2 then n - 1 else 0;
    var isolated := if n >= 1 && lone then n else 0;
    Score(doubled * DOUBLED_PAWN_PEN_MG + isolated * ISOLATED_PAWN_PEN_MG,
          doubled * DOUBLED_PAWN_PEN_EG + isolated * ISOLATED_PAWN_PEN_EG)
  }

  /** The penalties of files `0 .. k-1`. */
  function FilesPenalty(counts: seq<nat>, lone: seq<bool>, k: nat): Score
    requires k <= |counts| && k <= |lone|
  {
    if k == 0 then Score(0, 0)
    else Plus(FilesPenalty(counts, lone, k - 1), FilePenalty(counts[k - 1], lone[k - 1]))
  }

  /** Pawns that stand at most one to a file, none of them isolated, cost nothing. */
  lemma {:induction false} FilesPenaltyZero(counts: seq<nat>, lone: seq<bool>, k: nat)
    requires k <= |counts| && k <= |lone|
    requires forall f :: 0 <= f < k ==> counts[f] <= 1 && (counts[f] == 1 ==> !lone[f])
    ensures FilesPenalty(counts, lone, k) == Score(0, 0)
  {
    if k > 0 {
      FilesPenaltyZero(counts, lone, k - 1);
    }
  }

  /** Pawn structure never earns a bonus: the file penalties add up to a non-negative pair. */
  lemma {:induction false} FilesPenaltyNonNegative(counts: seq<nat>, lone: seq<bool>, k: nat)
    requires k <= |counts| && k <= |lone|
    ensures FilesPenalty(counts, lone, k).mg >= 0 && FilesPenalty(counts, lone, k).eg >= 0
  {
    if k > 0 {
      FilesPenaltyNonNegative(counts, lone, k - 1);
    }
  }

  /** Each doubled pawn costs the doubled penalty once: a file of `n >= 2` pawns none of which
   *  is isolated costs `n - 1` times it. */
  lemma DoubledOnly(n: nat)
    requires n >= 2
    ensures FilePenalty(n, false) == Score((n - 1) * 12, (n - 1) * 8)
  {
  }

  /** As written, a pawn on the a-file is always isolated, even beside a pawn on the b-file,
   *  and a b-file pawn with a c-file neighbour but none on the a-file is isolated too; the
   *  intended neighbour masks judge neither of them isolated. */
  lemma IsolatedAsWritten(P: set<Square>)
    ensures OnFile(P, 0) >= 1 ==> Isolation(P, AdjAsWritten)[0]
    ensures OnFile(P, 1) >= 1 ==> !Isolation(P, AdjSet)[0]
    ensures OnFile(P, 0) == 0 ==> Isolation(P, AdjAsWritten)[1]
    ensures OnFile(P, 2) >= 1 ==> !Isolation(P, AdjSet)[1]
  {
    AdjSetParts(0);
    AdjSetParts(1);
    var asWritten, intended := Isolation(P, AdjAsWritten), Isolation(P, AdjSet);
    assert asWritten[0] == (P * AdjAsWritten(0) == {}) && asWritten[1] == (P * AdjAsWritten(1) == {});
    assert intended[0] == (P * AdjSet(0) == {}) && intended[1] == (P * AdjSet(1) == {});
    if OnFile(P, 1) >= 1 {
      assert P * FileSet(1) != {};
    }
    if OnFile(P, 2) >= 1 {
      assert P * FileSet(2) != {};
    }
    if OnFile(P, 0) == 0 {
      assert P * FileSet(0) == {};
    }
  }

  // ---------------------------------------------------------------- rooks on open files

  const ROOK_OPEN_FILE_BONUS := Score(18, 10)
  const ROOK_SEMIOPEN_FILE_BONUS := Score(10, 6)

  /** The bonus of a rook on file `f`: open when no pawn of either side is on the file,
   *  semi-open when only enemy pawns are, nothing when an own pawn is. */
  ghost function RookBonus(f: int, P: set<Square>, O: set<Square>): Score
  {
    var open := P * FileSet(f) == {} && O * FileSet(f) == {};
    var semiOpen := P * FileSet(f) == {} && O * FileSet(f) != {};
    Score(if open then ROOK_OPEN_FILE_BONUS.mg else if semiOpen then ROOK_SEMIOPEN_FILE_BONUS.mg else 0,
          if open then ROOK_OPEN_FILE_BONUS.eg else if semiOpen then ROOK_SEMIOPEN_FILE_BONUS.eg else 0)
  }

  /** The bonuses of the rooks in `rooks`, in the order visited. */
  ghost function RookSum(rooks: seq<Square>, P: set<Square>, O: set<Square>): Score
  {
    if rooks == [] then Score(0, 0)
    else Plus(RookSum(rooks[..|rooks| - 1], P, O), RookBonus(FileOf(rooks[|rooks| - 1]), P, O))
  }

  lemma RookSumStep(done: seq<Square>, sq: Square, P: set<Square>, O: set<Square>)
    ensures RookSum(done + [sq], P, O) == Plus(RookSum(done, P, O), RookBonus(FileOf(sq), P, O))
  {
    assert (done + [sq])[..|done|] == done;
  }

  /** One step of the signed pawn-file accumulator. */
  lemma FilesAccStep(us: Color, counts: seq<nat>, lone: seq<bool>, f: nat, mg: int, eg: int, dmg: int, deg: int)
    requires f < |counts| && f < |lone|
    requires Score(-mg, -eg) == SignedScore(us, FilesPenalty(counts, lone, f))
    requires Score(-dmg, -deg) == SignedScore(us, FilePenalty(counts[f], lone[f]))
    ensures Score(-(mg + dmg), -(eg + deg)) == SignedScore(us, FilesPenalty(counts, lone, f + 1))
  {
  }

  /** One step of the signed rook accumulator. */
  lemma RookAccStep(us: Color, done: seq<Square>, sq: Square, P: set<Square>, O: set<Square>, mg: int, eg: int, dmg: int, deg: int)
    requires Score(mg, eg) == SignedScore(us, RookSum(done, P, O))
    requires Score(dmg, deg) == SignedScore(us, RookBonus(FileOf(sq), P, O))
    ensures Score(mg + dmg, eg + deg) == SignedScore(us, RookSum(done + [sq], P, O))
  {
    RookSumStep(done, sq, P, O);
  }

  /** With no pawns on the board every rook gets the open-file bonus. */
  lemma {:induction false} RookSumNoPawns(rooks: seq<Square>)
    ensures RookSum(rooks, {}, {}) == Score(|rooks| * ROOK_OPEN_FILE_BONUS.mg, |rooks| * ROOK_OPEN_FILE_BONUS.eg)
  {
    if rooks != [] {
      RookSumNoPawns(rooks[..|rooks| - 1]);
    }
  }

  /** Each rook earns between nothing and the open-file bonus. */
  lemma {:induction false} RookSumBounds(rooks: seq<Square>, P: set<Square>, O: set<Square>)
    ensures 0 <= RookSum(rooks, P, O).mg <= |rooks| * ROOK_OPEN_FILE_BONUS.mg
    ensures 0 <= RookSum(rooks, P, O).eg <= |rooks| * ROOK_OPEN_FILE_BONUS.eg
  {
    if rooks != [] {
      RookSumBounds(rooks[..|rooks| - 1], P, O);
    }
  }

  // ---------------------------------------------------------------- hanging pieces

  /** The penalty of a hanging piece of kind `p`; a king is never penalised. */
  function HangPen(p: Piece): (pen: Score)
    ensures pen.mg >= 0 && pen.eg >= 0
  {
    if p == PAWN then Score(8, 6)
    else if p == KNIGHT then Score(18, 14)
    else if p == BISHOP then Score(18, 14)
    else if p == ROOK then Score(28, 22)
    else if p == QUEEN then Score(40, 32)
    else Score(0, 0)
  }

  /** The squares attacked by the enemy and not defended. */
  ghost function Hanging(attUs: Bitboard, attThem: Bitboard): set<Square>
  {
    Squares(attThem) - Squares(attUs)
  }

  /** For each kind of piece of `us`, how many of them stand on the squares `H`. */
  ghost function Hits(pieces: seq<Bitboard>, us: Color, H: set<Square>): (hits: seq<nat>)
    requires |pieces| == 12
    ensures |hits| == 6
  {
    seq(6, p requires 0 <= p < 6 => |Squares(pieces[Code(us, p)]) * H|)
  }

  /** The penalties of the hanging pieces of the kinds below `k`, `hits[p]` of kind `p`. */
  function HangSum(hits: seq<nat>, k: nat): Score
    requires k <= |hits| && k <= 6
  {
    if k == 0 then Score(0, 0) else Plus(HangSum(hits, k - 1), Times(hits[k - 1], HangPen(k - 1)))
  }

  lemma CardStep(S: set<Square>, sq: Square, H: set<Square>)
    requires sq in S
    ensures |S * H| == |(S - {sq}) * H| + (if sq in H then 1 else 0)
    ensures |S - {sq}| == |S| - 1
  {
    if sq in H {
      assert S * H == (S - {sq}) * H + {sq};
    } else {
      assert S * H == (S - {sq}) * H;
    }
  }

  /** A square hangs when the enemy attacks it and no own piece defends it. */
  method IsHanging(sq: Square, attUs: Bitboard, attThem: Bitboard) returns (hanging: bool)
    ensures hanging <==> sq in Hanging(attUs, attThem)
  {
    var attacked := TestSquare(attThem, sq);
    var defended := TestSquare(attUs, sq);
    hanging := attacked && !defended;
  }

  /** The inner loop of `hanging_penalties` for one piece kind: every square of `b` that is
   *  attacked and not defended costs the kind's penalty, signed for `us`. */
  method HangPiece(us: Color, p: Piece, b: Bitboard, attUs: Bitboard, attThem: Bitboard) returns (mg: int, eg: int)
    ensures Score(-mg, -eg) == SignedScore(us, Times(|Squares(b) * Hanging(attUs, attThem)|, HangPen(p)))
  {
    ghost var H := Hanging(attUs, attThem);
    var pen := HangPen(p);
    var rest := b;
    ghost var hits := 0;
    mg, eg := 0, 0;
    while rest != 0
      invariant hits + |Squares(rest) * H| == |Squares(b) * H|
      invariant Score(-mg, -eg) == SignedScore(us, Times(hits, pen))
      decreases |Squares(rest)|
    {
      var sq, next := PopLsb(rest);
      CardStep(Squares(rest), sq, H);
      var hanging := IsHanging(sq, attUs, attThem);
      if hanging {
        HangHitStep(us, hits, pen, mg, eg);
        mg := mg - Signed(us, pen.mg);
        eg := eg - Signed(us, pen.eg);
        hits := hits + 1;
      }
      rest := next;
    }
    SquaresZero();
  }

  /** One more hanging piece of penalty `pen`. */
  lemma HangHitStep(us: Color, hits: nat, pen: Score, mg: int, eg: int)
    requires pen.mg >= 0 && pen.eg >= 0
    requires Score(-mg, -eg) == SignedScore(us, Times(hits, pen))
    ensures Score(-(mg - Signed(us, pen.mg)), -(eg - Signed(us, pen.eg))) == SignedScore(us, Times(hits + 1, pen))
  {
    TimesStep(hits, pen);
  }

  /** One more piece kind added to the hanging penalty. */
  lemma HangAccStep(us: Color, hits: seq<nat>, p: nat, mg: int, eg: int, dmg: int, deg: int)
    requires p < |hits| && p < 6
    requires Score(-mg, -eg) == SignedScore(us, HangSum(hits, p))
    requires Score(-dmg, -deg) == SignedScore(us, Times(hits[p], HangPen(p)))
    ensures Score(-(mg + dmg), -(eg + deg)) == SignedScore(us, HangSum(hits, p + 1))
  {
  }

  /** `hanging_penalties`: the pieces of `us` from pawn to queen, each kind in turn. */
  method HangingPenalties(pieces: seq<Bitboard>, us: Color, attUs: Bitboard, attThem: Bitboard) returns (mg: int, eg: int)
    requires |pieces| == 12
    ensures Score(-mg, -eg) == SignedScore(us, HangSum(Hits(pieces, us, Hanging(attUs, attThem)), 5))
  {
    ghost var hits := Hits(pieces, us, Hanging(attUs, attThem));
    mg, eg := 0, 0;
    var p := PAWN;
    while p <= QUEEN
      invariant 0 <= p <= 5
      invariant Score(-mg, -eg) == SignedScore(us, HangSum(hits, p))
    {
      var dmg, deg := HangPiece(us, p, pieces[Code(us, p)], attUs, attThem);
      assert hits[p] == |Squares(pieces[Code(us, p)]) * Hanging(attUs, attThem)|;
      HangAccStep(us, hits, p, mg, eg, dmg, deg);
      mg, eg := mg + dmg, eg + deg;
      p := p + 1;
    }
  }

  /** The sum reads only the counts of the kinds below `k`. */
  lemma {:induction false} HangSumPrefix(a: seq<nat>, b: seq<nat>, k: nat)
    requires k <= |a| && k <= |b| && k <= 6 && a[..k] == b[..k]
    ensures HangSum(a, k) == HangSum(b, k)
  {
    if k > 0 {
      assert a[k - 1] == a[..k][k - 1];
      assert a[..k - 1] == a[..k][..k - 1];
      assert b[..k - 1] == b[..k][..k - 1];
      HangSumPrefix(a, b, k - 1);
    }
  }

  /** Kings are never penalised: the king board of `us` does not enter the penalty. */
  lemma HangIgnoresKing(pieces: seq<Bitboard>, us: Color, H: set<Square>, king: Bitboard)
    requires |pieces| == 12
    ensures HangSum(Hits(pieces[Code(us, KING) := king], us, H), 5) == HangSum(Hits(pieces, us, H), 5)
  {
    var a, b := Hits(pieces[Code(us, KING) := king], us, H), Hits(pieces, us, H);
    forall p | 0 <= p < 5 ensures a[p] == b[p] {
      assert Code(us, p) != Code(us, KING);
    }
    assert a[..5] == b[..5];
    HangSumPrefix(a, b, 5);
  }

  /** The penalty never turns into a bonus. */
  lemma {:induction false} HangSumNonNegative(hits: seq<nat>, k: nat)
    requires k <= |hits| && k <= 6
    ensures HangSum(hits, k).mg >= 0 && HangSum(hits, k).eg >= 0
  {
    if k > 0 {
      HangSumNonNegative(hits, k - 1);
    }
  }

  /** Nothing is penalised when no counted piece hangs. */
  lemma {:induction false} HangSumNone(hits: seq<nat>, k: nat)
    requires k <= |hits| && k <= 6
    requires forall p :: 0 <= p < k ==> hits[p] == 0
    ensures HangSum(hits, k) == Score(0, 0)
  {
    if k > 0 {
      HangSumNone(hits, k - 1);
    }
  }

  /** When every square the enemy attacks is defended no piece hangs. */
  lemma AllDefended(pieces: seq<Bitboard>, us: Color, attUs: Bitboard, attThem: Bitboard)
    requires |pieces| == 12 && Squares(attThem) <= Squares(attUs)
    ensures HangSum(Hits(pieces, us, Hanging(attUs, attThem)), 5) == Score(0, 0)
  {
    assert Hanging(attUs, attThem) == {};
    HangSumNone(Hits(pieces, us, Hanging(attUs, attThem)), 5);
  }


  // ---------------------------------------------------------------- material and game phase

  const MG_VAL: seq<int> := [82, 337, 365, 477, 1025, 0]
  const EG_VAL: seq<int> := [94, 281, 297, 512, 936, 0]
  const PHASE_INC: seq<nat> := [0, 1, 1, 2, 4, 0]
  const TOTAL_PHASE: nat := 24

  /** The number of pieces on each of the twelve boards, indexed by piece code. */
  ghost function PieceCounts(pieces: seq<Bitboard>): (counts: seq<nat>)
    requires |pieces| == 12
    ensures |counts| == 12
  {
    seq(12, i requires 0 <= i < 12 => |Squares(pieces[i])|)
  }

  /** The material sum in the order `eval` visits the boards: the first `k` piece codes,
   *  White's counted with `+`, Black's with `-`. */
  function Material(counts: seq<nat>, vals: seq<int>, k: nat): int
    requires |counts| == 12 && |vals| == 6 && k <= 12
  {
    if k == 0 then 0
    else Material(counts, vals, k - 1) + Signed(if k - 1 < 6 then WHITE else BLACK, vals[(k - 1) % 6] * counts[k - 1])
  }

  /** The phase weight of the first `k` piece codes, before it is capped. */
  function PhaseSum(counts: seq<nat>, k: nat): nat
    requires |counts| == 12 && k <= 12
  {
    if k == 0 then 0 else PhaseSum(counts, k - 1) + PHASE_INC[(k - 1) % 6] * counts[k - 1]
  }

  /** One side's weighted piece count, the `k` first kinds of `cs`. */
  function SideSum(cs: seq<nat>, vals: seq<int>, k: nat): int
    requires |cs| == 6 && |vals| == 6 && k <= 6
  {
    if k == 0 then 0 else SideSum(cs, vals, k - 1) + vals[k - 1] * cs[k - 1]
  }

  /** The material and phase part of `eval`: per colour and kind, the piece count times
   *  the kind's middlegame and endgame value with the colour's sign, and the count times
   *  the kind's phase weight, the phase capped at 24 at the end. */
  method MaterialPhase(pieces: seq<Bitboard>) returns (mg: int, eg: int, phase: int)
    requires |pieces| == 12
    ensures mg == Material(PieceCounts(pieces), MG_VAL, 12)
    ensures eg == Material(PieceCounts(pieces), EG_VAL, 12)
    ensures phase == Min(PhaseSum(PieceCounts(pieces), 12), TOTAL_PHASE)
  {
    ghost var counts := PieceCounts(pieces);
    mg, eg, phase := 0, 0, 0;
    var c := 0;
    while c < 2
      invariant 0 <= c <= 2
      invariant mg == Material(counts, MG_VAL, 6 * c) && eg == Material(counts, EG_VAL, 6 * c)
      invariant phase == PhaseSum(counts, 6 * c)
    {
      var sign := if c == WHITE then 1 else -1;
      var p := 0;
      while p < 6
        invariant 0 <= p <= 6
        invariant mg == Material(counts, MG_VAL, 6 * c + p) && eg == Material(counts, EG_VAL, 6 * c + p)
        invariant phase == PhaseSum(counts, 6 * c + p)
      {
        var cnt := CountBits(pieces[Code(c, p)]);
        assert cnt == counts[6 * c + p];
        mg := mg + sign * (MG_VAL[p] * cnt);
        eg := eg + sign * (EG_VAL[p] * cnt);
        phase := phase + PHASE_INC[p] * cnt;
        p := p + 1;
      }
      c := c + 1;
    }
    phase := Min(phase, TOTAL_PHASE);
  }

  function Min(a: int, b: int): (r: int)
    ensures r <= a && r <= b && (r == a || r == b)
  {
    if a <= b then a else b
  }

  /** The visiting order does not matter: the material is White's sum less Black's. */
  lemma {:induction false} MaterialSplit(counts: seq<nat>, vals: seq<int>, k: nat)
    requires |counts| == 12 && |vals| == 6 && k <= 12
    ensures k <= 6 ==> Material(counts, vals, k) == SideSum(counts[..6], vals, k)
    ensures 6 <= k ==> Material(counts, vals, k) == SideSum(counts[..6], vals, 6) - SideSum(counts[6..], vals, k - 6)
  {
    if k > 0 {
      MaterialSplit(counts, vals, k - 1);
      if k <= 6 {
        assert counts[..6][k - 1] == counts[k - 1];
      } else {
        assert counts[6..][k - 7] == counts[k - 1];
        if k - 1 == 6 {
          assert Material(counts, vals, 6) == SideSum(counts[..6], vals, 6);
        }
      }
    }
  }

  /** A side that mirrors the other's pieces leaves no material edge; exchanging the
   *  colours negates it. */
  lemma MaterialSymmetry(counts: seq<nat>, swapped: seq<nat>, vals: seq<int>)
    requires |counts| == 12 && |vals| == 6
    requires swapped == counts[6..] + counts[..6]
    ensures counts[..6] == counts[6..] ==> Material(counts, vals, 12) == 0
    ensures Material(swapped, vals, 12) == -Material(counts, vals, 12)
  {
    MaterialSplit(counts, vals, 12);
    MaterialSplit(swapped, vals, 12);
    assert swapped[..6] == counts[6..] && swapped[6..] == counts[..6];
  }

  /** The phase weight is the same whichever side owns the pieces. */
  lemma {:induction false} PhaseSides(counts: seq<nat>, k: nat)
    requires |counts| == 12 && k <= 12
    ensures k <= 6 ==> PhaseSum(counts, k) == SideSum(counts[..6], PHASE_INC, k)
    ensures 6 <= k ==> PhaseSum(counts, k) == SideSum(counts[..6], PHASE_INC, 6) + SideSum(counts[6..], PHASE_INC, k - 6)
  {
    if k > 0 {
      PhaseSides(counts, k - 1);
      if k <= 6 {
        assert counts[..6][k - 1] == counts[k - 1];
      } else {
        assert counts[6..][k - 7] == counts[k - 1];
      }
    }
  }

  /** The starting army of each side (8 pawns, 2 knights, 2 bishops, 2 rooks, a queen and
   *  a king) makes exactly the full phase of 24 and no material edge. */
  lemma StartPhase(counts: seq<nat>)
    requires counts == [8, 2, 2, 2, 1, 1, 8, 2, 2, 2, 1, 1]
    ensures PhaseSum(counts, 12) == TOTAL_PHASE
    ensures Material(counts, MG_VAL, 12) == 0 && Material(counts, EG_VAL, 12) == 0
  {
    PhaseSides(counts, 12);
    var army := [8, 2, 2, 2, 1, 1];
    assert counts[..6] == counts[6..] == army;
    assert SideSum(army, PHASE_INC, 3) == 4;
    assert SideSum(army, PHASE_INC, 6) == 12;
    MaterialSymmetry(counts, counts[6..] + counts[..6], MG_VAL);
    MaterialSymmetry(counts, counts[6..] + counts[..6], EG_VAL);
  }

  /** Pawns and kings do not move the phase: with nothing else left it is 0, the pure
   *  endgame. */
  lemma {:induction false} PawnsAndKingsPhase(counts: seq<nat>, k: nat)
    requires |counts| == 12 && k <= 12
    requires forall i :: 0 <= i < 12 && i % 6 != PAWN && i % 6 != KING ==> counts[i] == 0
    ensures PhaseSum(counts, k) == 0
  {
    if k > 0 {
      PawnsAndKingsPhase(counts, k - 1);
    }
  }

  // ---------------------------------------------------------------- the tapered blend

  /** C++ integer division, which truncates toward zero (Dafny's `/` floors for a negative
   *  dividend and a positive divisor). */
  function CDiv(a: int, b: int): int
    requires b > 0
  {
    if a >= 0 then a / b else -((-a) / b)
  }

  /** The truncated quotient times the divisor lies between zero and the dividend, within
   *  one divisor of it. */
  lemma CDivBounds(a: int, b: int)
    requires b > 0
    ensures a >= 0 ==> 0 <= CDiv(a, b) * b <= a < CDiv(a, b) * b + b
    ensures a < 0 ==> CDiv(a, b) * b - b < a <= CDiv(a, b) * b <= 0
  {
    var n := if a >= 0 then a else -a;
    var q, r := n / b, n % b;
    assert n == q * b + r && 0 <= r < b;
    assert q >= 0;
  }

  /** Truncation is symmetric about zero. */
  lemma CDivNegate(a: int, b: int)
    requires b > 0
    ensures CDiv(-a, b) == -CDiv(a, b)
  {
  }

  /** A quotient of a value between `24 * lo` and `24 * hi` lies between `lo` and `hi`. */
  lemma CDivBetween(s: int, lo: int, hi: int)
    requires TOTAL_PHASE * lo <= s <= TOTAL_PHASE * hi
    ensures lo <= CDiv(s, TOTAL_PHASE) <= hi
  {
    CDivBounds(s, TOTAL_PHASE);
  }

  /** The tapered score from White's side: the middlegame score weighted by the phase and
   *  the endgame score by what is missing from 24, divided by 24 toward zero. */
  function Blend(mg: int, eg: int, phase: int): int
    requires 0 <= phase <= TOTAL_PHASE
  {
    CDiv(mg * phase + eg * (TOTAL_PHASE - phase), TOTAL_PHASE)
  }

  /** The blend is the middlegame score at full phase, the endgame score at phase 0, and
   *  always lies between the two. */
  lemma BlendBounds(mg: int, eg: int, phase: int)
    requires 0 <= phase <= TOTAL_PHASE
    ensures phase == TOTAL_PHASE ==> Blend(mg, eg, phase) == mg
    ensures phase == 0 ==> Blend(mg, eg, phase) == eg
    ensures Min(mg, eg) <= Blend(mg, eg, phase) <= -Min(-mg, -eg)
  {
    var s := mg * phase + eg * (TOTAL_PHASE - phase);
    var w := TOTAL_PHASE - phase;
    assert s == TOTAL_PHASE * mg + (eg - mg) * w;
    assert s == TOTAL_PHASE * eg + (mg - eg) * phase;
    if mg <= eg {
      MulNonNegative(eg - mg, w);
      MulNonNegative(eg - mg, phase);
      CDivBetween(s, mg, eg);
    } else {
      MulNonNegative(mg - eg, w);
      MulNonNegative(mg - eg, phase);
      CDivBetween(s, eg, mg);
    }
  }

  lemma MulNonNegative(x: int, y: int)
    requires x >= 0 && y >= 0
    ensures x * y >= 0
  {
  }

  /** The score `eval` returns: the blend, negated when Black is to move. */
  function SideToMoveScore(stm: Color, mg: int, eg: int, phase: int): (score: int)
    requires 0 <= phase <= TOTAL_PHASE
    ensures score == Signed(stm, Blend(mg, eg, phase))
  {
    var blended := Blend(mg, eg, phase);
    if stm == WHITE then blended else -blended
  }

  /** Exchanging the colours of every term and the side to move gives the same score: the
   *  blend commutes with negation because the division truncates toward zero (with a flooring
   *  division a sum of -1 would blend to -1, and its flip +1 to 0). */
  lemma ColourFlip(mg: int, eg: int, phase: int)
    requires 0 <= phase <= TOTAL_PHASE
    ensures SideToMoveScore(BLACK, -mg, -eg, phase) == SideToMoveScore(WHITE, mg, eg, phase)
  {
    assert -mg * phase + -eg * (TOTAL_PHASE - phase) == -(mg * phase + eg * (TOTAL_PHASE - phase));
    CDivNegate(mg * phase + eg * (TOTAL_PHASE - phase), TOTAL_PHASE);
  }
}
