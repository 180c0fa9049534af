/** The attack tables of attacks.cpp: the leaper tables `Attacks::init` fills (pawn, knight,
 *  king), the slow ray walks for sliders, the relevant-occupancy masks, the per-square magic
 *  tables and the `rook_attacks` / `bishop_attacks` lookups with their slow fallback. */
module Attacks {
  import opened Types
  import opened Words
  import opened Bitboards

  // ---------------------------------------------------------------- geometry

  /** `on_board(f, r)`. */
  predicate OnBoard(f: int, r: int)
  {
    0 <= f < 8 && 0 <= r < 8
  }

  /** The square on file `f`, rank `r`: `r * 8 + f`, written as a sum. */
  function SqAt(f: int, r: int): (s: Square)
    requires OnBoard(f, r)
  {
    var r2 := r + r;
    var r4 := r2 + r2;
    r4 + r4 + f
  }

  /** Every square is the square of its own file and rank. */
  lemma SquareCoords(t: Square)
    ensures OnBoard(FileOf(t), RankOf(t)) && t == SqAt(FileOf(t), RankOf(t))
  {
    FileRankOfSquare(t);
  }

  /** The file and rank of the square on (f, r) are f and r. */
  lemma SqAtCoords(f: int, r: int)
    requires OnBoard(f, r)
    ensures FileOf(SqAt(f, r)) == f && RankOf(SqAt(f, r)) == r
  {
  }

  function Abs(x: int): nat
  {
    if x < 0 then -x else x
  }

  // ---------------------------------------------------------------- leapers

  /** The squares a pawn of colour `c` on `sq` attacks: one rank forward (up for White, down
   *  for Black) on a neighbouring file. */
  ghost function PawnTargets(c: Color, sq: Square): set<Square>
  {
    set t: Square | RankOf(t) == RankOf(sq) + (if c == WHITE then 1 else -1) && Abs(FileOf(t) - FileOf(sq)) == 1
  }

  /** A knight jump: two squares along one axis and one along the other. */
  predicate KnightJump(df: int, dr: int)
  {
    (Abs(df) == 1 && Abs(dr) == 2) || (Abs(df) == 2 && Abs(dr) == 1)
  }

  ghost function KnightTargets(sq: Square): set<Square>
  {
    set t: Square | KnightJump(FileOf(t) - FileOf(sq), RankOf(t) - RankOf(sq))
  }

  /** A king step: to a different square at most one file and one rank away. */
  predicate KingStep(df: int, dr: int)
  {
    Abs(df) <= 1 && Abs(dr) <= 1 && (df != 0 || dr != 0)
  }

  ghost function KingTargets(sq: Square): set<Square>
  {
    set t: Square | KingStep(FileOf(t) - FileOf(sq), RankOf(t) - RankOf(sq))
  }

  /** `dfN` and `drN` of `Attacks::init`: the eight knight offsets in the order they are tried. */
  const KNIGHT_DF: seq<int> := [-2, -2, -1, -1, 1, 1, 2, 2]
  const KNIGHT_DR: seq<int> := [-1, 1, -2, 2, -2, 2, -1, 1]

  /** The position of a knight offset in `KNIGHT_DF` / `KNIGHT_DR`. */
  function KnightIndex(df: int, dr: int): (i: nat)
    requires KnightJump(df, dr)
    ensures i < 8 && KNIGHT_DF[i] == df && KNIGHT_DR[i] == dr
  {
    if df == -2 then (if dr == -1 then 0 else 1)
    else if df == -1 then (if dr == -2 then 2 else 3)
    else if df == 1 then (if dr == -2 then 4 else 5)
    else (if dr == -1 then 6 else 7)
  }

  /** The knight targets whose offset comes before position `i` of the table. */
  ghost function KnightTargetsBefore(sq: Square, i: int): set<Square>
  {
    set t: Square | KnightJump(FileOf(t) - FileOf(sq), RankOf(t) - RankOf(sq))
                    && KnightIndex(FileOf(t) - FileOf(sq), RankOf(t) - RankOf(sq)) < i
  }

  /** A pawn attacks the forward diagonal on either side that is on the board. */
  lemma PawnTargetsShape(c: Color, sq: Square, t: Square)
    ensures var f, r, dr := FileOf(sq), RankOf(sq), if c == WHITE then 1 else -1;
      t in PawnTargets(c, sq) <==>
        (OnBoard(f - 1, r + dr) && t == SqAt(f - 1, r + dr)) || (OnBoard(f + 1, r + dr) && t == SqAt(f + 1, r + dr))
  {
    SquareCoords(t);
  }

  /** The square on (f, r) as a set, empty when (f, r) is off the board. */
  ghost function SquareIfOn(f: int, r: int): set<Square>
  {
    if OnBoard(f, r) then {SqAt(f, r)} else {}
  }

  /** The pawn targets are the two forward diagonals, each kept when on the board. */
  lemma PawnTargetsSides(c: Color, sq: Square)
    ensures var f, r, dr := FileOf(sq), RankOf(sq), if c == WHITE then 1 else -1;
      PawnTargets(c, sq) == SquareIfOn(f - 1, r + dr) + SquareIfOn(f + 1, r + dr)
  {
    var f, r, dr := FileOf(sq), RankOf(sq), if c == WHITE then 1 else -1;
    forall t: Square
      ensures t in PawnTargets(c, sq) <==> t in SquareIfOn(f - 1, r + dr) + SquareIfOn(f + 1, r + dr)
    {
      PawnTargetsShape(c, sq, t);
    }
  }

  /** The pawn entry for one square and colour: the two diagonals forward, when on the board. */
  method PawnFrom(c: Color, sq: Square) returns (a: Bitboard)
    ensures Squares(a) == PawnTargets(c, sq)
  {
    var f, r := FileOf(sq), RankOf(sq);
    var dr := if c == WHITE then 1 else -1;
    a := 0;
    SquaresZero();
    if OnBoard(f - 1, r + dr) {
      a := SetSquare(a, SqAt(f - 1, r + dr));
    }
    assert Squares(a) == SquareIfOn(f - 1, r + dr);
    if OnBoard(f + 1, r + dr) {
      a := SetSquare(a, SqAt(f + 1, r + dr));
    }
    assert Squares(a) == SquareIfOn(f - 1, r + dr) + SquareIfOn(f + 1, r + dr);
    PawnTargetsSides(c, sq);
  }

  /** Each table entry is a knight jump, found at its own position. */
  lemma KnightTable(i: nat)
    requires i < 8
    ensures KnightJump(KNIGHT_DF[i], KNIGHT_DR[i]) && KnightIndex(KNIGHT_DF[i], KNIGHT_DR[i]) == i
  {
  }

  /** Trying offset `i` adds exactly the square it lands on, if that is on the board. */
  lemma KnightTargetsStep(sq: Square, i: nat, t: Square)
    requires i < 8
    ensures var nf, nr := FileOf(sq) + KNIGHT_DF[i], RankOf(sq) + KNIGHT_DR[i];
      t in KnightTargetsBefore(sq, i + 1) <==> t in KnightTargetsBefore(sq, i) || (OnBoard(nf, nr) && t == SqAt(nf, nr))
  {
    var nf, nr := FileOf(sq) + KNIGHT_DF[i], RankOf(sq) + KNIGHT_DR[i];
    var df, dr := FileOf(t) - FileOf(sq), RankOf(t) - RankOf(sq);
    KnightTable(i);
    var hit := KnightJump(df, dr) && KnightIndex(df, dr) == i;
    assert t in KnightTargetsBefore(sq, i + 1) <==> t in KnightTargetsBefore(sq, i) || hit;
    if hit {
      SquareCoords(t);
      assert FileOf(t) == nf && RankOf(t) == nr;
    }
    if OnBoard(nf, nr) && t == SqAt(nf, nr) {
      SqAtCoords(nf, nr);
      assert df == KNIGHT_DF[i] && dr == KNIGHT_DR[i];
    }
  }

  lemma KnightTargetsAll(sq: Square)
    ensures KnightTargetsBefore(sq, 8) == KnightTargets(sq)
  {
  }

  /** The knight entry for one square: the offsets tried in table order. */
  method KnightFrom(sq: Square) returns (k: Bitboard)
    ensures Squares(k) == KnightTargets(sq)
  {
    var f, r := FileOf(sq), RankOf(sq);
    k := 0;
    SquaresZero();
    var i := 0;
    while i < 8
      invariant 0 <= i <= 8
      invariant Squares(k) == KnightTargetsBefore(sq, i)
    {
      var nf, nr := f + KNIGHT_DF[i], r + KNIGHT_DR[i];
      ghost var before := k;
      if OnBoard(nf, nr) {
        k := SetSquare(k, SqAt(nf, nr));
      }
      KnightGrow(sq, i, before, k);
      i := i + 1;
    }
    KnightTargetsAll(sq);
  }

  lemma KnightGrow(sq: Square, i: nat, before: Bitboard, after: Bitboard)
    requires i < 8 && Squares(before) == KnightTargetsBefore(sq, i)
    requires var nf, nr := FileOf(sq) + KNIGHT_DF[i], RankOf(sq) + KNIGHT_DR[i];
      Squares(after) == if OnBoard(nf, nr) then Squares(before) + {SqAt(nf, nr)} else Squares(before)
    ensures Squares(after) == KnightTargetsBefore(sq, i + 1)
  {
    forall t: Square
      ensures t in Squares(after) <==> t in KnightTargetsBefore(sq, i + 1)
    {
      KnightTargetsStep(sq, i, t);
    }
  }

  /** The place of a king offset in the order the two nested loops visit it. */
  function KingOrder(df: int, dr: int): int
  {
    (df + 1) * 3 + (dr + 1)
  }

  ghost function KingTargetsBefore(sq: Square, n: int): set<Square>
  {
    set t: Square | KingStep(FileOf(t) - FileOf(sq), RankOf(t) - RankOf(sq))
                    && KingOrder(FileOf(t) - FileOf(sq), RankOf(t) - RankOf(sq)) < n
  }

  /** Visiting offset `(df, dr)` adds exactly the square it lands on, if it is a king step on
   *  the board. */
  lemma KingTargetsStep(sq: Square, df: int, dr: int, t: Square)
    requires -1 <= df <= 1 && -1 <= dr <= 1
    ensures var nf, nr := FileOf(sq) + df, RankOf(sq) + dr;
      t in KingTargetsBefore(sq, KingOrder(df, dr) + 1) <==>
        t in KingTargetsBefore(sq, KingOrder(df, dr)) || (!(df == 0 && dr == 0) && OnBoard(nf, nr) && t == SqAt(nf, nr))
  {
    var nf, nr := FileOf(sq) + df, RankOf(sq) + dr;
    var tf, tr := FileOf(t) - FileOf(sq), RankOf(t) - RankOf(sq);
    SquareCoords(t);
    if KingStep(tf, tr) && KingOrder(tf, tr) == KingOrder(df, dr) {
      assert tf == df && tr == dr;
    }
    if !(df == 0 && dr == 0) && OnBoard(nf, nr) && t == SqAt(nf, nr) {
      assert tf == df && tr == dr;
    }
  }

  lemma KingTargetsAll(sq: Square)
    ensures KingTargetsBefore(sq, KingOrder(2, -1)) == KingTargets(sq)
  {
  }

  lemma KingGrow(sq: Square, df: int, dr: int, before: Bitboard, after: Bitboard)
    requires -1 <= df <= 1 && -1 <= dr <= 1
    requires Squares(before) == KingTargetsBefore(sq, KingOrder(df, dr))
    requires var nf, nr := FileOf(sq) + df, RankOf(sq) + dr;
      Squares(after) == if !(df == 0 && dr == 0) && OnBoard(nf, nr) then Squares(before) + {SqAt(nf, nr)} else Squares(before)
    ensures Squares(after) == KingTargetsBefore(sq, KingOrder(df, dr) + 1)
  {
    forall t: Square
      ensures t in Squares(after) <==> t in KingTargetsBefore(sq, KingOrder(df, dr) + 1)
    {
      KingTargetsStep(sq, df, dr, t);
    }
  }

  /** The king entry for one square: the eight neighbours, file offset outer, rank offset inner. */
  method KingFrom(sq: Square) returns (g: Bitboard)
    ensures Squares(g) == KingTargets(sq)
  {
    var f, r := FileOf(sq), RankOf(sq);
    g := 0;
    SquaresZero();
    var df := -1;
    while df <= 1
      invariant -1 <= df <= 2
      invariant Squares(g) == KingTargetsBefore(sq, KingOrder(df, -1))
    {
      var dr := -1;
      while dr <= 1
        invariant -1 <= dr <= 2
        invariant Squares(g) == KingTargetsBefore(sq, KingOrder(df, dr))
      {
        ghost var before := g;
        if !(df == 0 && dr == 0) {
          var nf, nr := f + df, r + dr;
          if OnBoard(nf, nr) {
            g := SetSquare(g, SqAt(nf, nr));
          }
        }
        KingGrow(sq, df, dr, before, g);
        dr := dr + 1;
      }
      df := df + 1;
    }
    KingTargetsAll(sq);
  }

  // ---------------------------------------------------------------- rays

  /** One of the eight directions: a file step and a rank step in -1..1, not both zero. */
  predicate Dir(df: int, dr: int)
  {
    -1 <= df <= 1 && -1 <= dr <= 1 && (df != 0 || dr != 0)
  }

  /** The coordinate `k` steps from `x` in direction `d` (`x + k * d` for `d` in -1..1). */
  function Along(x: int, d: int, k: int): int
  {
    if d > 0 then x + k else if d < 0 then x - k else x
  }

  /** How many squares remain before the edge, walking from (ff, rr) in direction (df, dr). */
  function Dist(ff: int, rr: int, df: int, dr: int): int
  {
    if df > 0 then 8 - ff else if df < 0 then ff + 1 else if dr > 0 then 8 - rr else rr + 1
  }

  /** The squares a slider reaches walking from (ff, rr) in direction (df, dr): every square
   *  up to and including the first occupied one, stopping at the edge. */
  ghost function RayFrom(ff: int, rr: int, df: int, dr: int, blk: set<Square>): set<Square>
    requires Dir(df, dr)
    decreases if OnBoard(ff, rr) then Dist(ff, rr, df, dr) else 0
  {
    if !OnBoard(ff, rr) then {}
    else {SqAt(ff, rr)} + (if SqAt(ff, rr) in blk then {} else RayFrom(ff + df, rr + dr, df, dr, blk))
  }

  /** The ray from `sq` in direction (df, dr), starting one step away. */
  ghost function Ray(sq: Square, df: int, dr: int, occ: Bitboard): set<Square>
    requires Dir(df, dr)
  {
    RayFrom(FileOf(sq) + df, RankOf(sq) + dr, df, dr, Squares(occ))
  }

  /** One ray loop of `rook_attacks_slow` / `bishop_attacks_slow`: or in the squares along the
   *  direction, stopping after the first occupied one. */
  method RayWalk(sq: Square, df: int, dr: int, occ: Bitboard, a0: Bitboard) returns (a: Bitboard)
    requires Dir(df, dr)
    ensures Squares(a) == Squares(a0) + Ray(sq, df, dr, occ)
  {
    var ff, rr := FileOf(sq) + df, RankOf(sq) + dr;
    assert Ray(sq, df, dr, occ) == RayFrom(ff, rr, df, dr, Squares(occ));
    a := RayWalkFrom(ff, rr, df, dr, occ, a0);
  }

  /** The loop of `RayWalk`, from the square (ff, rr) on. */
  method RayWalkFrom(f0: int, r0: int, df: int, dr: int, occ: Bitboard, a0: Bitboard) returns (a: Bitboard)
    requires Dir(df, dr)
    ensures Squares(a) == Squares(a0) + RayFrom(f0, r0, df, dr, Squares(occ))
  {
    var ff, rr := f0, r0;
    a := a0;
    ghost var goal := Squares(a0) + RayFrom(f0, r0, df, dr, Squares(occ));
    while OnBoard(ff, rr)
      invariant Squares(a) + RayFrom(ff, rr, df, dr, Squares(occ)) == goal
      decreases Dist(ff, rr, df, dr)
    {
      var s := SqAt(ff, rr);
      ghost var before := a;
      a := SetSquare(a, s);
      var hit := TestSquare(occ, s);
      RayStep(ff, rr, df, dr, occ, before, a, goal);
      if hit {
        return;
      }
      ff, rr := ff + df, rr + dr;
    }
    RayFromEnd(ff, rr, df, dr, Squares(occ));
  }

  /** Or-ing in the square at (ff, rr) moves it from the rest of the ray into the result; the
   *  walk ends there exactly when it is occupied. */
  lemma RayStep(ff: int, rr: int, df: int, dr: int, occ: Bitboard, before: Bitboard, after: Bitboard, goal: set<Square>)
    requires Dir(df, dr) && OnBoard(ff, rr)
    requires Squares(before) + RayFrom(ff, rr, df, dr, Squares(occ)) == goal
    requires Squares(after) == Squares(before) + {SqAt(ff, rr)}
    ensures SqAt(ff, rr) in Squares(occ) ==> Squares(after) == goal
    ensures SqAt(ff, rr) !in Squares(occ) ==> Squares(after) + RayFrom(ff + df, rr + dr, df, dr, Squares(occ)) == goal
  {
  }

  /** A ray from off the board is empty. */
  lemma RayFromEnd(ff: int, rr: int, df: int, dr: int, blk: set<Square>)
    requires Dir(df, dr) && !OnBoard(ff, rr)
    ensures RayFrom(ff, rr, df, dr, blk) == {}
  {
  }

  // ---------------------------------------------------------------- slow slider attacks

  /** The squares a rook (four lines) or a bishop (four diagonals) on `sq` attacks over `occ`. */
  ghost function SliderSet(rook: bool, sq: Square, occ: Bitboard): set<Square>
  {
    if rook then Ray(sq, 0, 1, occ) + Ray(sq, 0, -1, occ) + Ray(sq, 1, 0, occ) + Ray(sq, -1, 0, occ)
    else Ray(sq, 1, 1, occ) + Ray(sq, -1, 1, occ) + Ray(sq, 1, -1, occ) + Ray(sq, -1, -1, occ)
  }

  /** `rook_attacks_slow`: up the file, down the file, right along the rank, left along it. */
  method RookAttacksSlow(sq: Square, occ: Bitboard) returns (a: Bitboard)
    ensures Squares(a) == SliderSet(true, sq, occ)
  {
    a := 0;
    SquaresZero();
    a := RayWalk(sq, 0, 1, occ, a);
    a := RayWalk(sq, 0, -1, occ, a);
    a := RayWalk(sq, 1, 0, occ, a);
    a := RayWalk(sq, -1, 0, occ, a);
  }

  /** `bishop_attacks_slow`: the four diagonals, up-right first. */
  method BishopAttacksSlow(sq: Square, occ: Bitboard) returns (a: Bitboard)
    ensures Squares(a) == SliderSet(false, sq, occ)
  {
    a := 0;
    SquaresZero();
    a := RayWalk(sq, 1, 1, occ, a);
    a := RayWalk(sq, -1, 1, occ, a);
    a := RayWalk(sq, 1, -1, occ, a);
    a := RayWalk(sq, -1, -1, occ, a);
  }

  method SlowAttacks(rook: bool, sq: Square, occ: Bitboard) returns (a: Bitboard)
    ensures Squares(a) == SliderSet(rook, sq, occ)
  {
    if rook {
      a := RookAttacksSlow(sq, occ);
    } else {
      a := BishopAttacksSlow(sq, occ);
    }
  }

  // ---------------------------------------------------------------- relevant-occupancy masks

  /** The squares of the walk from (ff, rr) whose next square is still on the board: the
   *  squares whose occupancy can change where the ray stops. */
  ghost function MaskFrom(ff: int, rr: int, df: int, dr: int): set<Square>
    requires Dir(df, dr)
    decreases if OnBoard(ff, rr) then Dist(ff, rr, df, dr) else 0
  {
    if !(OnBoard(ff, rr) && OnBoard(ff + df, rr + dr)) then {}
    else {SqAt(ff, rr)} + MaskFrom(ff + df, rr + dr, df, dr)
  }

  ghost function MaskRay(sq: Square, df: int, dr: int): set<Square>
    requires Dir(df, dr)
  {
    MaskFrom(FileOf(sq) + df, RankOf(sq) + dr, df, dr)
  }

  ghost function MaskSet(rook: bool, sq: Square): set<Square>
  {
    if rook then MaskRay(sq, 0, 1) + MaskRay(sq, 0, -1) + MaskRay(sq, 1, 0) + MaskRay(sq, -1, 0)
    else MaskRay(sq, 1, 1) + MaskRay(sq, -1, 1) + MaskRay(sq, 1, -1) + MaskRay(sq, -1, -1)
  }

  /** One loop of `rook_relevant_mask` / `bishop_relevant_mask`: or in every square of the
   *  direction except the last one before the edge. */
  method MaskWalk(sq: Square, df: int, dr: int, m0: Bitboard) returns (m: Bitboard)
    requires Dir(df, dr)
    ensures Squares(m) == Squares(m0) + MaskRay(sq, df, dr)
  {
    var ff, rr := FileOf(sq) + df, RankOf(sq) + dr;
    assert MaskRay(sq, df, dr) == MaskFrom(ff, rr, df, dr);
    m := MaskWalkFrom(ff, rr, df, dr, m0);
  }

  /** The loop of `MaskWalk`, from the square (ff, rr) on. */
  method MaskWalkFrom(f0: int, r0: int, df: int, dr: int, m0: Bitboard) returns (m: Bitboard)
    requires Dir(df, dr)
    ensures Squares(m) == Squares(m0) + MaskFrom(f0, r0, df, dr)
  {
    var ff, rr := f0, r0;
    m := m0;
    ghost var goal := Squares(m0) + MaskFrom(f0, r0, df, dr);
    while OnBoard(ff, rr) && OnBoard(ff + df, rr + dr)
      invariant Squares(m) + MaskFrom(ff, rr, df, dr) == goal
      decreases Dist(ff, rr, df, dr)
    {
      var x := SqAt(ff, rr);
      ghost var done := Squares(m);
      m := SetSquare(m, x);
      MaskFromStep(ff, rr, df, dr, done, Squares(m), goal);
      ff, rr := ff + df, rr + dr;
    }
    MaskFromEnd(ff, rr, df, dr);
  }

  /** One square of the walk moves from the mask still to come into the mask built so far. */
  lemma MaskFromStep(ff: int, rr: int, df: int, dr: int, done: set<Square>, now: set<Square>, goal: set<Square>)
    requires Dir(df, dr) && OnBoard(ff, rr) && OnBoard(ff + df, rr + dr)
    requires done + MaskFrom(ff, rr, df, dr) == goal && now == done + {SqAt(ff, rr)}
    ensures now + MaskFrom(ff + df, rr + dr, df, dr) == goal
  {
  }

  /** The walk ends where the next square is off the board. */
  lemma MaskFromEnd(ff: int, rr: int, df: int, dr: int)
    requires Dir(df, dr) && !(OnBoard(ff, rr) && OnBoard(ff + df, rr + dr))
    ensures MaskFrom(ff, rr, df, dr) == {}
  {
  }

  /** `rook_relevant_mask`. */
  method RookRelevantMask(sq: Square) returns (m: Bitboard)
    ensures Squares(m) == MaskSet(true, sq)
  {
    m := 0;
    SquaresZero();
    m := MaskWalk(sq, 0, 1, m);
    m := MaskWalk(sq, 0, -1, m);
    m := MaskWalk(sq, 1, 0, m);
    m := MaskWalk(sq, -1, 0, m);
  }

  /** `bishop_relevant_mask`. */
  method BishopRelevantMask(sq: Square) returns (m: Bitboard)
    ensures Squares(m) == MaskSet(false, sq)
  {
    m := 0;
    SquaresZero();
    m := MaskWalk(sq, 1, 1, m);
    m := MaskWalk(sq, -1, 1, m);
    m := MaskWalk(sq, 1, -1, m);
    m := MaskWalk(sq, -1, -1, m);
  }

  /** A ray depends only on the occupancy of its mask squares: the square before the edge
   *  ends the ray whether or not it is occupied. */
  lemma {:induction false} RayFromRelevant(ff: int, rr: int, df: int, dr: int, occ: Bitboard, occ2: Bitboard)
    requires Dir(df, dr)
    requires forall s :: s in MaskFrom(ff, rr, df, dr) ==> (Has(occ, s) <==> Has(occ2, s))
    ensures RayFrom(ff, rr, df, dr, Squares(occ)) == RayFrom(ff, rr, df, dr, Squares(occ2))
    decreases if OnBoard(ff, rr) then Dist(ff, rr, df, dr) else 0
  {
    if OnBoard(ff, rr) {
      var s, nf, nr := SqAt(ff, rr), ff + df, rr + dr;
      if OnBoard(nf, nr) {
        assert MaskFrom(ff, rr, df, dr) == {s} + MaskFrom(nf, nr, df, dr);
        assert s in Squares(occ) <==> s in Squares(occ2);
        RayFromRelevant(nf, nr, df, dr, occ, occ2);
      } else {
        assert RayFrom(nf, nr, df, dr, Squares(occ)) == {};
        assert RayFrom(nf, nr, df, dr, Squares(occ2)) == {};
      }
    }
  }

  /** Slider attacks depend only on the occupancy inside the relevant mask; this is what lets
   *  the magic tables index by `occ & mask`. */
  lemma SliderRelevant(rook: bool, sq: Square, occ: Bitboard, occ2: Bitboard)
    requires forall s :: s in MaskSet(rook, sq) ==> (Has(occ, s) <==> Has(occ2, s))
    ensures SliderSet(rook, sq, occ) == SliderSet(rook, sq, occ2)
  {
    if rook {
      RayRelevant(sq, 0, 1, occ, occ2);
      RayRelevant(sq, 0, -1, occ, occ2);
      RayRelevant(sq, 1, 0, occ, occ2);
      RayRelevant(sq, -1, 0, occ, occ2);
    } else {
      RayRelevant(sq, 1, 1, occ, occ2);
      RayRelevant(sq, -1, 1, occ, occ2);
      RayRelevant(sq, 1, -1, occ, occ2);
      RayRelevant(sq, -1, -1, occ, occ2);
    }
  }

  lemma RayRelevant(sq: Square, df: int, dr: int, occ: Bitboard, occ2: Bitboard)
    requires Dir(df, dr)
    requires forall s :: s in MaskRay(sq, df, dr) ==> (Has(occ, s) <==> Has(occ2, s))
    ensures Ray(sq, df, dr, occ) == Ray(sq, df, dr, occ2)
  {
    RayFromRelevant(FileOf(sq) + df, RankOf(sq) + dr, df, dr, occ, occ2);
  }

  /** The room left before the edge along coordinate `x` moving by `d`. */
  function Room(x: int, d: int): int
  {
    if d > 0 then 7 - x else if d < 0 then x else 7
  }

  lemma {:induction false} MaskFromSize(ff: int, rr: int, df: int, dr: int)
    requires Dir(df, dr)
    ensures OnBoard(ff, rr) && df != 0 ==> |MaskFrom(ff, rr, df, dr)| <= Room(ff, df)
    ensures OnBoard(ff, rr) && dr != 0 ==> |MaskFrom(ff, rr, df, dr)| <= Room(rr, dr)
    ensures !OnBoard(ff, rr) ==> MaskFrom(ff, rr, df, dr) == {}
    decreases if OnBoard(ff, rr) then Dist(ff, rr, df, dr) else 0
  {
    if OnBoard(ff, rr) && OnBoard(ff + df, rr + dr) {
      MaskFromSize(ff + df, rr + dr, df, dr);
      MaskFromGrow(ff, rr, df, dr, MaskFrom(ff + df, rr + dr, df, dr));
    } else if OnBoard(ff, rr) {
      assert MaskFrom(ff, rr, df, dr) == {};
    }
  }

  /** One step of the mask walk adds one square and uses one square of room. */
  lemma MaskFromGrow(ff: int, rr: int, df: int, dr: int, rest: set<Square>)
    requires Dir(df, dr) && OnBoard(ff, rr) && OnBoard(ff + df, rr + dr)
    requires rest == MaskFrom(ff + df, rr + dr, df, dr)
    requires df != 0 ==> |rest| <= Room(ff + df, df)
    requires dr != 0 ==> |rest| <= Room(rr + dr, dr)
    ensures df != 0 ==> |MaskFrom(ff, rr, df, dr)| <= Room(ff, df)
    ensures dr != 0 ==> |MaskFrom(ff, rr, df, dr)| <= Room(rr, dr)
  {
    assert MaskFrom(ff, rr, df, dr) == {SqAt(ff, rr)} + rest;
    CardAddOne(SqAt(ff, rr), rest);
  }

  lemma CardAddOne(x: Square, rest: set<Square>)
    ensures |{x} + rest| <= 1 + |rest|
  {
  }

  /** The most squares the mask walk from (f, r) in direction (df, dr) can hold: the room
   *  before the edge, counted from its first square. */
  function RoomFrom(f: int, r: int, df: int, dr: int): int
  {
    if !OnBoard(f, r) then 0
    else if df == 0 then Room(r, dr)
    else if dr == 0 then Room(f, df)
    else if Room(f, df) <= Room(r, dr) then Room(f, df) else Room(r, dr)
  }

  /** The same bound for the mask ray from `sq`. */
  function RayRoom(sq: Square, df: int, dr: int): int
    requires Dir(df, dr)
  {
    RoomFrom(FileOf(sq) + df, RankOf(sq) + dr, df, dr)
  }

  lemma MaskFromRoom(f: int, r: int, df: int, dr: int)
    requires Dir(df, dr)
    ensures |MaskFrom(f, r, df, dr)| <= RoomFrom(f, r, df, dr)
  {
    MaskFromSize(f, r, df, dr);
  }

  lemma MaskRayRoom(sq: Square, df: int, dr: int)
    requires Dir(df, dr)
    ensures |MaskRay(sq, df, dr)| <= RayRoom(sq, df, dr)
  {
    var f, r := FileOf(sq) + df, RankOf(sq) + dr;
    assert MaskRay(sq, df, dr) == MaskFrom(f, r, df, dr);
    assert RayRoom(sq, df, dr) == RoomFrom(f, r, df, dr);
    MaskFromRoom(f, r, df, dr);
  }

  lemma CardUnion4(a: set<Square>, b: set<Square>, c: set<Square>, d: set<Square>, n: int)
    requires |a| + |b| + |c| + |d| <= n
    ensures |a + b + c + d| <= n
  {
  }

  /** The four rook rays leave room for at most 12 squares, the four bishop rays for 9. */
  lemma RoomTotals(sq: Square)
    ensures RayRoom(sq, 0, 1) + RayRoom(sq, 0, -1) + RayRoom(sq, 1, 0) + RayRoom(sq, -1, 0) <= 12
    ensures RayRoom(sq, 1, 1) + RayRoom(sq, -1, 1) + RayRoom(sq, 1, -1) + RayRoom(sq, -1, -1) <= 9
  {
    FileRankOfSquare(sq);
  }

  /** At most 12 relevant squares for a rook, so a table of 4096 entries per square suffices. */
  lemma RookMaskSize(sq: Square)
    ensures |MaskSet(true, sq)| <= 12
  {
    MaskRayRoom(sq, 0, 1);
    MaskRayRoom(sq, 0, -1);
    MaskRayRoom(sq, 1, 0);
    MaskRayRoom(sq, -1, 0);
    RoomTotals(sq);
    CardUnion4(MaskRay(sq, 0, 1), MaskRay(sq, 0, -1), MaskRay(sq, 1, 0), MaskRay(sq, -1, 0), 12);
  }

  /** At most 9 relevant squares for a bishop, so a table of 512 entries per square suffices. */
  lemma BishopMaskSize(sq: Square)
    ensures |MaskSet(false, sq)| <= 9
  {
    MaskRayRoom(sq, 1, 1);
    MaskRayRoom(sq, -1, 1);
    MaskRayRoom(sq, 1, -1);
    MaskRayRoom(sq, -1, -1);
    RoomTotals(sq);
    CardUnion4(MaskRay(sq, 1, 1), MaskRay(sq, -1, 1), MaskRay(sq, 1, -1), MaskRay(sq, -1, -1), 9);
  }

  // ---------------------------------------------------------------- the leaper tables

  /** The squares a piece of colour `c` and kind `p` standing on `f` attacks over `occ`. */
  ghost function PieceAttacks(c: Color, p: Piece, f: Square, occ: Bitboard): set<Square>
  {
    if p == PAWN then PawnTargets(c, f)
    else if p == KNIGHT then KnightTargets(f)
    else if p == BISHOP then SliderSet(false, f, occ)
    else if p == ROOK then SliderSet(true, f, occ)
    else if p == QUEEN then SliderSet(true, f, occ) + SliderSet(false, f, occ)
    else if p == KING then KingTargets(f)
    else {}
  }

  // ---------------------------------------------------------------- symmetry

  /** A pawn of colour `c` on `f` attacks `t` exactly when a pawn of the other colour on `t`
   *  would attack `f`: the reverse lookup of `is_attacked`. */
  lemma PawnSymmetric(c: Color, f: Square, t: Square)
    ensures t in PawnTargets(c, f) <==> f in PawnTargets(Other(c), t)
  {
  }

  lemma KnightSymmetric(f: Square, t: Square)
    ensures t in KnightTargets(f) <==> f in KnightTargets(t)
  {
  }

  lemma KingSymmetric(f: Square, t: Square)
    ensures t in KingTargets(f) <==> f in KingTargets(t)
  {
  }

  /** The squares `j` steps from (ff, rr) in direction (df, dr), for `j < k`, are on the board
   *  and not blocked. */
  ghost predicate Clear(ff: int, rr: int, df: int, dr: int, k: int, blk: set<Square>)
  {
    forall j :: 0 <= j < k ==>
      OnBoard(Along(ff, df, j), Along(rr, dr, j)) && SqAt(Along(ff, df, j), Along(rr, dr, j)) !in blk
  }

  /** `t` lies `k` steps from (ff, rr) in direction (df, dr), past unblocked squares only. */
  ghost predicate Hits(ff: int, rr: int, df: int, dr: int, k: int, blk: set<Square>, t: Square)
  {
    k >= 0 && OnBoard(Along(ff, df, k), Along(rr, dr, k)) && t == SqAt(Along(ff, df, k), Along(rr, dr, k))
    && Clear(ff, rr, df, dr, k, blk)
  }

  /** Stepping once and then `j` more steps is `j + 1` steps. */
  lemma AlongShift(x: int, d: int, j: int)
    requires -1 <= d <= 1
    ensures Along(x + d, d, j) == Along(x, d, j + 1)
  {
  }

  /** An unblocked first square followed by a clear stretch is a clear stretch one longer. */
  lemma {:induction false} ClearCons(ff: int, rr: int, df: int, dr: int, k: int, blk: set<Square>)
    requires Dir(df, dr) && OnBoard(ff, rr) && SqAt(ff, rr) !in blk
    requires Clear(ff + df, rr + dr, df, dr, k, blk)
    ensures Clear(ff, rr, df, dr, k + 1, blk)
  {
    var gf, gr := ff + df, rr + dr;
    forall j | 0 <= j < k + 1
      ensures OnBoard(Along(ff, df, j), Along(rr, dr, j)) && SqAt(Along(ff, df, j), Along(rr, dr, j)) !in blk
    {
      if j > 0 {
        AlongShift(ff, df, j - 1);
        AlongShift(rr, dr, j - 1);
        assert OnBoard(Along(gf, df, j - 1), Along(gr, dr, j - 1));
      }
    }
  }

  /** The rest of a clear stretch after its first square is clear. */
  lemma {:induction false} ClearTail(ff: int, rr: int, df: int, dr: int, k: int, blk: set<Square>)
    requires Dir(df, dr) && Clear(ff, rr, df, dr, k + 1, blk)
    ensures Clear(ff + df, rr + dr, df, dr, k, blk)
  {
    var gf, gr := ff + df, rr + dr;
    forall j | 0 <= j < k
      ensures OnBoard(Along(gf, df, j), Along(gr, dr, j)) && SqAt(Along(gf, df, j), Along(gr, dr, j)) !in blk
    {
      AlongShift(ff, df, j);
      AlongShift(rr, dr, j);
      assert OnBoard(Along(ff, df, j + 1), Along(rr, dr, j + 1));
    }
  }

  /** Every square of a walk is reached past unblocked squares only. */
  lemma {:induction false} RayFromReach(ff: int, rr: int, df: int, dr: int, blk: set<Square>, t: Square) returns (k: nat)
    requires Dir(df, dr) && t in RayFrom(ff, rr, df, dr, blk)
    ensures Hits(ff, rr, df, dr, k, blk, t)
    decreases Dist(ff, rr, df, dr)
  {
    assert Along(ff, df, 0) == ff && Along(rr, dr, 0) == rr;
    if t == SqAt(ff, rr) {
      k := 0;
    } else {
      var k1 := RayFromReach(ff + df, rr + dr, df, dr, blk, t);
      k := k1 + 1;
      AlongShift(ff, df, k1);
      AlongShift(rr, dr, k1);
      ClearCons(ff, rr, df, dr, k1, blk);
    }
  }

  /** Every square reached past unblocked squares only is on the walk. */
  lemma {:induction false} ReachRayFrom(ff: int, rr: int, df: int, dr: int, blk: set<Square>, t: Square, k: nat)
    requires Dir(df, dr) && Hits(ff, rr, df, dr, k, blk, t)
    ensures t in RayFrom(ff, rr, df, dr, blk)
    decreases k
  {
    if k > 0 {
      HitsTail(ff, rr, df, dr, blk, t, k);
      ReachRayFrom(ff + df, rr + dr, df, dr, blk, t, k - 1);
    } else {
      assert Along(ff, df, 0) == ff && Along(rr, dr, 0) == rr;
    }
  }

  /** A stretch of `k > 0` steps is an unblocked first square followed by `k - 1` steps. */
  lemma {:induction false} HitsTail(ff: int, rr: int, df: int, dr: int, blk: set<Square>, t: Square, k: nat)
    requires Dir(df, dr) && k > 0 && Hits(ff, rr, df, dr, k, blk, t)
    ensures OnBoard(ff, rr) && SqAt(ff, rr) !in blk && Hits(ff + df, rr + dr, df, dr, k - 1, blk, t)
  {
    assert Along(ff, df, 0) == ff && Along(rr, dr, 0) == rr;
    assert OnBoard(Along(ff, df, 0), Along(rr, dr, 0));
    AlongShift(ff, df, k - 1);
    AlongShift(rr, dr, k - 1);
    ClearTail(ff, rr, df, dr, k - 1, blk);
  }

  /** Walking `k` steps one way and `k - 1 - j` back the other way lands `j + 1` steps out. */
  lemma AlongBack(x: int, d: int, k: int, j: int)
    requires -1 <= d <= 1
    ensures Along(Along(x + d, d, k) - d, -d, j) == Along(x + d, d, k - 1 - j)
  {
  }

  /** A clear stretch read backwards from its far end is clear. */
  lemma {:induction false} ClearBack(ff: int, rr: int, df: int, dr: int, k: int, blk: set<Square>, sf: int, sr: int)
    requires Dir(df, dr) && Clear(ff + df, rr + dr, df, dr, k, blk)
    requires sf == Along(ff + df, df, k) - df && sr == Along(rr + dr, dr, k) - dr
    ensures Clear(sf, sr, -df, -dr, k, blk)
  {
    var gf, gr := ff + df, rr + dr;
    var ef, er := -df, -dr;
    forall j | 0 <= j < k
      ensures OnBoard(Along(sf, ef, j), Along(sr, er, j)) && SqAt(Along(sf, ef, j), Along(sr, er, j)) !in blk
    {
      AlongBack(ff, df, k, j);
      AlongBack(rr, dr, k, j);
      assert OnBoard(Along(gf, df, k - 1 - j), Along(gr, dr, k - 1 - j));
    }
  }

  /** Walking from one step past (f, r) reaches `t` exactly `k` steps later; walking back from
   *  one step short of `t` reaches (f, r). */
  lemma {:induction false} RayFromFlip(f: int, r: int, t: Square, df: int, dr: int, blk: set<Square>) returns (sf: int, sr: int)
    requires Dir(df, dr) && OnBoard(f, r) && t in RayFrom(f + df, r + dr, df, dr, blk)
    ensures OnBoard(sf + df, sr + dr) && t == SqAt(sf + df, sr + dr)
    ensures SqAt(f, r) in RayFrom(sf, sr, -df, -dr, blk)
  {
    var k := RayFromReach(f + df, r + dr, df, dr, blk, t);
    var af, ar := Along(f + df, df, k), Along(r + dr, dr, k);
    sf, sr := af - df, ar - dr;
    assert sf + df == af && sr + dr == ar;
    HitsBack(f, r, df, dr, k, blk, sf, sr);
    ReachRayFrom(sf, sr, -df, -dr, blk, SqAt(f, r), k);
  }

  /** The far end of a clear stretch, stepped back once, reaches its start going the other way. */
  lemma {:induction false} HitsBack(f: int, r: int, df: int, dr: int, k: nat, blk: set<Square>, sf: int, sr: int)
    requires Dir(df, dr) && OnBoard(f, r) && Clear(f + df, r + dr, df, dr, k, blk)
    requires sf == Along(f + df, df, k) - df && sr == Along(r + dr, dr, k) - dr
    ensures Hits(sf, sr, -df, -dr, k, blk, SqAt(f, r))
  {
    AlongBack(f, df, k, k);
    AlongBack(r, dr, k, k);
    assert Along(f + df, df, -1) == f && Along(r + dr, dr, -1) == r;
    ClearBack(f, r, df, dr, k, blk, sf, sr);
  }

  /** Reaching `t` from `sq` in one direction means reaching `sq` from `t` in the opposite one:
   *  the same empty squares lie between them. */
  lemma {:induction false} RayFlip(sq: Square, t: Square, df: int, dr: int, occ: Bitboard)
    requires Dir(df, dr) && t in Ray(sq, df, dr, occ)
    ensures sq in Ray(t, -df, -dr, occ)
  {
    SquareCoords(sq);
    RayFlipAt(FileOf(sq), RankOf(sq), sq, t, df, dr, occ);
  }

  lemma RayFlipAt(f: int, r: int, sq: Square, t: Square, df: int, dr: int, occ: Bitboard)
    requires Dir(df, dr) && OnBoard(f, r) && sq == SqAt(f, r)
    requires t in RayFrom(f + df, r + dr, df, dr, Squares(occ))
    ensures sq in Ray(t, -df, -dr, occ)
  {
    var sf, sr := RayFromFlip(f, r, t, df, dr, Squares(occ));
    RayAt(t, sf + df, sr + dr, -df, -dr, occ, sf, sr);
  }

  /** The ray from the square on (f, r) starts at (f + df, r + dr). */
  lemma RayAt(t: Square, f: int, r: int, df: int, dr: int, occ: Bitboard, nf: int, nr: int)
    requires Dir(df, dr) && OnBoard(f, r) && t == SqAt(f, r) && nf == f + df && nr == r + dr
    ensures Ray(t, df, dr, occ) == RayFrom(nf, nr, df, dr, Squares(occ))
  {
    SqAtCoords(f, r);
  }

  /** One ray, both ways. */
  lemma {:induction false} RaySymmetric(a: Square, b: Square, df: int, dr: int, occ: Bitboard)
    requires Dir(df, dr)
    ensures b in Ray(a, df, dr, occ) <==> a in Ray(b, -df, -dr, occ)
  {
    if b in Ray(a, df, dr, occ) {
      RayFlip(a, b, df, dr, occ);
    }
    if a in Ray(b, -df, -dr, occ) {
      RayFlip(b, a, -df, -dr, occ);
    }
  }

  /** A slider on `f` attacks `t` exactly when the same slider on `t` would attack `f`: the
   *  reverse lookup `is_attacked` makes from the attacked square. */
  lemma SliderSymmetric(rook: bool, f: Square, t: Square, occ: Bitboard)
    ensures t in SliderSet(rook, f, occ) <==> f in SliderSet(rook, t, occ)
  {
    if rook {
      RaySymmetric(f, t, 0, 1, occ);
      RaySymmetric(f, t, 0, -1, occ);
      RaySymmetric(f, t, 1, 0, occ);
      RaySymmetric(f, t, -1, 0, occ);
    } else {
      RaySymmetric(f, t, 1, 1, occ);
      RaySymmetric(f, t, -1, 1, occ);
      RaySymmetric(f, t, 1, -1, occ);
      RaySymmetric(f, t, -1, -1, occ);
    }
  }

  /** `Attacks`: the pawn (by colour), knight and king target sets of every square. */
  class LeaperTables {
    const pawn: array2<Bitboard>
    const knight: array<Bitboard>
    const king: array<Bitboard>

    ghost predicate Valid()
      reads this
    {
      pawn.Length0 == 2 && pawn.Length1 == 64 && knight.Length == 64 && king.Length == 64 && knight != king
    }

    /** Every entry holds the targets its piece has from its square. */
    ghost predicate Filled()
      reads this, pawn, knight, king
      requires Valid()
    {
      forall s: Square ::
        && Squares(pawn[WHITE, s]) == PawnTargets(WHITE, s)
        && Squares(pawn[BLACK, s]) == PawnTargets(BLACK, s)
        && Squares(knight[s]) == KnightTargets(s)
        && Squares(king[s]) == KingTargets(s)
    }

    /** The zero-initialised global `ATK`. */
    constructor ()
      ensures Valid() && fresh(pawn) && fresh(knight) && fresh(king)
    {
      pawn := new Bitboard[2, 64]((c, s) => 0);
      knight := new Bitboard[64](s => 0);
      king := new Bitboard[64](s => 0);
    }

    /** `Attacks::init` (the leaper part): fills every entry, square by square. */
    method Init()
      requires Valid()
      modifies pawn, knight, king
      ensures Valid() && Filled()
    {
      var sq := 0;
      while sq < 64
        invariant 0 <= sq <= 64
        invariant forall s: Square :: s < sq ==>
          && Squares(pawn[WHITE, s]) == PawnTargets(WHITE, s)
          && Squares(pawn[BLACK, s]) == PawnTargets(BLACK, s)
          && Squares(knight[s]) == KnightTargets(s)
          && Squares(king[s]) == KingTargets(s)
      {
        var w := PawnFrom(WHITE, sq);
        var b := PawnFrom(BLACK, sq);
        pawn[WHITE, sq] := w;
        pawn[BLACK, sq] := b;
        var k := KnightFrom(sq);
        knight[sq] := k;
        var g := KingFrom(sq);
        king[sq] := g;
        sq := sq + 1;
      }
    }
  }
}
