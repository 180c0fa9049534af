/** What `gen_pseudo` (position.cpp) produces, stated on a `PosState`: the attack predicates
 *  `is_attacked` answers, the order in which `pop_lsb` visits a board, and the move list with
 *  its parts in the generator's order. The `Position` class in position.dfy is proved to
 *  produce exactly this list, and every move in it is proved to fit the position, so that
 *  `unmake` takes back what `make` did. */
module MoveGenSpec {
  import opened Types
  import opened Words
  import opened Bitboards
  import opened Moves
  import opened PositionSpec
  import opened Attacks

  // ---------------------------------------------------------------- attacks on a square

  /** Some piece of kind `p` of side `side` attacks `sq` from where it stands. */
  ghost predicate HitBy(bb: seq<Bitboard>, occAll: Bitboard, sq: Square, side: Color, p: RealPiece)
    requires |bb| == 12
  {
    exists f: Square :: f in Squares(bb[Code(side, p)]) && sq in PieceAttacks(side, p, f, occAll)
  }

  /** Some piece of side `side` attacks `sq`, reading the pieces from the piece boards. */
  ghost predicate AttackedOn(bb: seq<Bitboard>, occAll: Bitboard, sq: Square, side: Color)
    requires |bb| == 12
  {
    exists p: RealPiece :: HitBy(bb, occAll, sq, side, p)
  }

  /** Some piece of side `side` attacks `sq`, reading the pieces from the mailbox. */
  ghost predicate Attacked(s: PosState, sq: Square, side: Color)
    requires Shaped(s)
  {
    exists f: Square, p: RealPiece :: s.board[f] == Code(side, p) && sq in PieceAttacks(side, p, f, s.occAll)
  }

  /** In a consistent position the piece boards and the mailbox give the same answer. */
  lemma AttackedMailbox(s: PosState, sq: Square, side: Color)
    requires Valid(s)
    ensures AttackedOn(s.bb, s.occAll, sq, side) <==> Attacked(s, sq, side)
  {
    if AttackedOn(s.bb, s.occAll, sq, side) {
      var p: RealPiece :| HitBy(s.bb, s.occAll, sq, side, p);
      var f: Square :| f in Squares(s.bb[Code(side, p)]) && sq in PieceAttacks(side, p, f, s.occAll);
      assert Has(s.bb[Code(side, p)], f);
    }
    if Attacked(s, sq, side) {
      var f: Square, p: RealPiece :| s.board[f] == Code(side, p) && sq in PieceAttacks(side, p, f, s.occAll);
      assert Has(s.bb[Code(side, p)], f);
      assert f in Squares(s.bb[Code(side, p)]);
      assert HitBy(s.bb, s.occAll, sq, side, p);
    }
  }

  /** A queen of `side` attacks `sq` along a line or along a diagonal. */
  ghost predicate QueenHit(bb: seq<Bitboard>, occAll: Bitboard, sq: Square, side: Color, rook: bool)
    requires |bb| == 12
  {
    exists f: Square :: f in Squares(bb[Code(side, QUEEN)]) && sq in SliderSet(rook, f, occAll)
  }

  lemma QueenLines(bb: seq<Bitboard>, occAll: Bitboard, sq: Square, side: Color)
    requires |bb| == 12
    ensures HitBy(bb, occAll, sq, side, QUEEN) <==> QueenHit(bb, occAll, sq, side, true) || QueenHit(bb, occAll, sq, side, false)
  {
  }

  /** Any attack on `sq` comes from one of the six piece kinds. */
  lemma AttackedCases(bb: seq<Bitboard>, occAll: Bitboard, sq: Square, side: Color)
    requires |bb| == 12
    ensures AttackedOn(bb, occAll, sq, side) <==>
      HitBy(bb, occAll, sq, side, PAWN) || HitBy(bb, occAll, sq, side, KNIGHT) || HitBy(bb, occAll, sq, side, BISHOP)
      || HitBy(bb, occAll, sq, side, ROOK) || HitBy(bb, occAll, sq, side, QUEEN) || HitBy(bb, occAll, sq, side, KING)
  {
    if AttackedOn(bb, occAll, sq, side) {
      var p: RealPiece :| HitBy(bb, occAll, sq, side, p);
    }
  }

  // ---------------------------------------------------------------- visiting order

  /** The squares of `S` from `i` upward, in increasing order. */
  ghost function Enumerate(S: set<Square>, i: int): seq<Square>
    requires 0 <= i <= 64
    decreases 64 - i
  {
    if i == 64 then []
    else
      var sq: Square := i;
      if sq in S then [sq] + Enumerate(S, i + 1) else Enumerate(S, i + 1)
  }

  /** The squares of `S` in increasing order. */
  ghost function Ordered(S: set<Square>): seq<Square>
  {
    Enumerate(S, 0)
  }

  lemma {:induction false} EnumerateAgree(S: set<Square>, T: set<Square>, i: int)
    requires 0 <= i <= 64
    requires forall x: Square :: i <= x ==> (x in S <==> x in T)
    ensures Enumerate(S, i) == Enumerate(T, i)
    decreases 64 - i
  {
    if i < 64 {
      EnumerateAgree(S, T, i + 1);
    }
  }

  /** Enumerating from below the least element lists that element first. */
  lemma {:induction false} EnumerateLowest(S: set<Square>, lo: Square, i: int)
    requires 0 <= i <= lo && lo in S && forall x :: x in S ==> lo <= x
    ensures Enumerate(S, i) == [lo] + Enumerate(S - {lo}, i)
    decreases lo - i
  {
    if i < lo {
      EnumerateLowest(S, lo, i + 1);
    } else {
      EnumerateAgree(S, S - {lo}, i + 1);
    }
  }

  /** An element is listed exactly when it is in the set and not below the start. */
  lemma {:induction false} EnumerateMembers(S: set<Square>, i: int)
    requires 0 <= i <= 64
    ensures forall x :: x in Enumerate(S, i) <==> x in S && i <= x
    decreases 64 - i
  {
    if i < 64 {
      EnumerateMembers(S, i + 1);
    }
  }

  /** Nothing is listed from `i` when the set holds nothing from `i`. */
  lemma {:induction false} EnumerateNone(S: set<Square>, i: int)
    requires 0 <= i <= 64 && forall x: Square :: i <= x ==> x !in S
    ensures Enumerate(S, i) == []
    decreases 64 - i
  {
    if i < 64 {
      EnumerateNone(S, i + 1);
    }
  }

  /** Repeated `pop_lsb` visits the squares of a board in increasing order. */
  lemma {:induction false} SquareListOrdered(b: Bitboard)
    ensures SquareList(b) == Ordered(Squares(b))
    decreases |Squares(b)|
  {
    if b == 0 {
      SquaresZero();
      EnumerateNone(Squares(b), 0);
    } else {
      SquareListOrdered(ClearLowest(b));
      EnumerateLowest(Squares(b), Lowest(b), 0);
    }
  }

  // ---------------------------------------------------------------- the move list

  /** The positions `gen_pseudo` reads inside its arrays: the side to move has a recorded king
   *  square, and the en-passant square is a square or NO_SQ. */
  predicate GenReady(s: PosState)
  {
    && Shaped(s)
    && 0 <= s.kingSq[s.stm] < 64
    && (s.epSq == NO_SQ || 0 <= s.epSq < 64)
  }

  /** A pawn's step: up the board for White, down for Black. */
  function PawnDir(us: Color): int
  {
    if us == WHITE then 8 else -8
  }

  /** The rank pawns start on, from which they may push two squares. */
  function StartRank(us: Color): int
  {
    if us == WHITE then 1 else 6
  }

  /** The rank before the last, from which a pawn move promotes. */
  function PromoRank(us: Color): int
  {
    if us == WHITE then 6 else 1
  }

  /** The four promotions of one pawn move, queen first, then rook, bishop, knight. */
  function Promotions(from: Square, to: Square, cap: Piece): seq<Move>
  {
    [ MakeMove(from, to, PAWN, cap, QUEEN, MF_PROMO), MakeMove(from, to, PAWN, cap, ROOK, MF_PROMO),
      MakeMove(from, to, PAWN, cap, BISHOP, MF_PROMO), MakeMove(from, to, PAWN, cap, KNIGHT, MF_PROMO) ]
  }

  /** The pushes of a pawn of the side to move standing on `from`: one square forward onto an
   *  empty square (the four promotions from the rank before the last), then two squares from
   *  the starting rank when that square is empty too. */
  function PawnPushes(s: PosState, from: Square): seq<Move>
    requires Shaped(s)
  {
    var us := s.stm;
    var dir := PawnDir(us);
    var to1 := from + dir;
    if !(0 <= to1 < 64 && s.board[to1] == EMPTY_CODE) then []
    else if RankOf(from) == PromoRank(us) then Promotions(from, to1, NO_PIECE)
    else
      [MakeMove(from, to1, PAWN, NO_PIECE, NO_PIECE, MF_NONE)]
      + (if RankOf(from) == StartRank(us) && s.board[from + 2 * dir] == EMPTY_CODE
         then [MakeMove(from, from + 2 * dir, PAWN, NO_PIECE, NO_PIECE, MF_DBLPAWN)]
         else [])
  }

  /** A capture by the pawn on `from` onto `to`, naming the piece of the entry on `to`. */
  function PawnCapture(us: Color, from: Square, to: Square, code: BoardCode): seq<Move>
  {
    var cap := CodePiece(code);
    if RankOf(from) == PromoRank(us) then Promotions(from, to, cap)
    else [MakeMove(from, to, PAWN, cap, NO_PIECE, MF_NONE)]
  }

  /** The captures of the pawn on `from` onto `tos`, in that order. */
  function PawnCaptures(board: seq<BoardCode>, us: Color, from: Square, tos: seq<Square>): seq<Move>
    requires |board| == 64
    decreases |tos|
  {
    if tos == [] then []
    else var to := tos[|tos| - 1];
      PawnCaptures(board, us, from, tos[..|tos| - 1]) + PawnCapture(us, from, to, board[to])
  }

  /** A capture loop's step appends the captures onto one more square. */
  lemma PawnCapturesStep(board: seq<BoardCode>, us: Color, from: Square, done: seq<Square>, to: Square)
    requires |board| == 64
    ensures PawnCaptures(board, us, from, done + [to]) == PawnCaptures(board, us, from, done) + PawnCapture(us, from, to, board[to])
  {
    assert (done + [to])[..|done|] == done;
  }

  /** The en-passant capture of the pawn on `from`, when it attacks the en-passant square. */
  ghost function PawnEp(s: PosState, from: Square): seq<Move>
    requires GenReady(s)
  {
    if s.epSq != NO_SQ && s.epSq in PawnTargets(s.stm, from) then
      [MakeMove(from, s.epSq, PAWN, PAWN, NO_PIECE, MF_EP)]
    else
      []
  }

  /** The squares a pawn on `from` captures on: those it attacks that an enemy piece holds. */
  ghost function PawnHits(s: PosState, from: Square): set<Square>
    requires Shaped(s)
  {
    PawnTargets(s.stm, from) * Squares(s.occ[Other(s.stm)])
  }

  /** What one pawn generates: its pushes, its captures in square order, its en-passant capture. */
  ghost function PawnMoves(s: PosState, from: Square): seq<Move>
    requires GenReady(s)
  {
    PawnPushes(s, from) + PawnCaptures(s.board, s.stm, from, Ordered(PawnHits(s, from))) + PawnEp(s, from)
  }

  /** What the pawns on `froms` generate, in that order. */
  ghost function PawnsGen(s: PosState, froms: seq<Square>): seq<Move>
    requires GenReady(s)
    decreases |froms|
  {
    if froms == [] then []
    else PawnsGen(s, froms[..|froms| - 1]) + PawnMoves(s, froms[|froms| - 1])
  }

  /** The pawn loop's step appends what one more pawn generates. */
  lemma PawnsGenStep(s: PosState, done: seq<Square>, from: Square)
    requires GenReady(s)
    ensures PawnsGen(s, done + [from]) == PawnsGen(s, done) + PawnMoves(s, from)
  {
    assert (done + [from])[..|done|] == done;
  }

  /** The captured piece a move onto an entry names: none for an empty square. */
  function CaptureOf(code: BoardCode): Piece
  {
    if code == EMPTY_CODE then NO_PIECE else CodePiece(code)
  }

  /** The move of a piece `p` from `from` onto `to`, whose entry is `code`: a quiet move onto
   *  an empty square, otherwise a capture of the piece standing there. */
  function TargetMove(from: Square, p: Piece, to: Square, code: BoardCode): Move
  {
    MakeMove(from, to, p, CaptureOf(code), NO_PIECE, MF_NONE)
  }

  /** The moves of the piece `p` on `from` onto `tos`, one per target, in that order. */
  function TargetMoves(board: seq<BoardCode>, from: Square, p: Piece, tos: seq<Square>): seq<Move>
    requires |board| == 64
  {
    seq(|tos|, i requires 0 <= i < |tos| => TargetMove(from, p, tos[i], board[tos[i]]))
  }

  /** The squares a piece `p` of the side to move on `from` may go to: those it attacks that
   *  its own side does not hold. */
  ghost function Reach(s: PosState, p: Piece, from: Square): set<Square>
    requires Shaped(s)
  {
    PieceAttacks(s.stm, p, from, s.occAll) - Squares(s.occ[s.stm])
  }

  /** What the pieces `p` on `froms` generate, in that order, each onto its targets in square
   *  order. */
  ghost function PiecesGen(s: PosState, p: Piece, froms: seq<Square>): seq<Move>
    requires Shaped(s)
    decreases |froms|
  {
    if froms == [] then []
    else
      var from := froms[|froms| - 1];
      PiecesGen(s, p, froms[..|froms| - 1]) + TargetMoves(s.board, from, p, Ordered(Reach(s, p, from)))
  }

  /** A piece loop's step appends what one more piece generates. */
  lemma PiecesGenStep(s: PosState, p: Piece, done: seq<Square>, from: Square)
    requires Shaped(s)
    ensures PiecesGen(s, p, done + [from]) == PiecesGen(s, p, done) + TargetMoves(s.board, from, p, Ordered(Reach(s, p, from)))
  {
    assert (done + [from])[..|done|] == done;
  }

  /** The king's steps, from its recorded square. */
  ghost function KingGen(s: PosState): seq<Move>
    requires GenReady(s)
  {
    var from := s.kingSq[s.stm];
    TargetMoves(s.board, from, KING, Ordered(Reach(s, KING, from)))
  }

  /** One castling move of the king from `from` to `to`: the right is held, the squares between
   *  king and rook are empty and no square the king stands on or crosses is attacked. */
  ghost function Castle(s: PosState, bit: nat, from: Square, to: Square, empty: set<Square>, safe: set<Square>): seq<Move>
    requires Shaped(s)
  {
    if && Has(s.castling, bit)
       && (forall x :: x in empty ==> s.board[x] == EMPTY_CODE)
       && (forall x :: x in safe ==> !AttackedOn(s.bb, s.occAll, x, Other(s.stm)))
    then [MakeMove(from, to, KING, NO_PIECE, NO_PIECE, MF_CASTLE)]
    else []
  }

  /** The castling moves of the side to move, king side first. */
  ghost function CastleGen(s: PosState): seq<Move>
    requires Shaped(s)
  {
    if s.stm == WHITE then
      Castle(s, WK_BIT, 4, 6, {5, 6}, {4, 5, 6}) + Castle(s, WQ_BIT, 4, 2, {3, 2, 1}, {4, 3, 2})
    else
      Castle(s, BK_BIT, 60, 62, {61, 62}, {60, 61, 62}) + Castle(s, BQ_BIT, 60, 58, {59, 58, 57}, {60, 59, 58})
  }

  /** The squares of the side to move's pieces of kind `p`, in increasing order. */
  ghost function Own(s: PosState, p: RealPiece): seq<Square>
    requires Shaped(s)
  {
    Ordered(Squares(s.bb[Code(s.stm, p)]))
  }

  /** The list `gen_pseudo` fills: pawns, knights, bishops, rooks, queens, king, castling. */
  ghost function GenSpec(s: PosState): seq<Move>
    requires GenReady(s)
  {
    PawnsGen(s, Own(s, PAWN))
    + PiecesGen(s, KNIGHT, Own(s, KNIGHT)) + PiecesGen(s, BISHOP, Own(s, BISHOP))
    + PiecesGen(s, ROOK, Own(s, ROOK)) + PiecesGen(s, QUEEN, Own(s, QUEEN))
    + KingGen(s) + CastleGen(s)
  }
  // ---------------------------------------------------------------- every generated move fits

  /** The square the king of `c` starts on. */
  function KingHome(c: Color): Square
  {
    if c == WHITE then 4 else 60
  }

  /** What the generator relies on beyond a valid position: the side to move's king stands on
   *  its recorded square; every castling right is backed by its rook, and a right of the side
   *  to move by its king on its home square; an en-passant square is empty, with the enemy
   *  pawn that passed over it standing behind it. */
  ghost predicate Coherent(s: PosState)
  {
    && Valid(s) && GenReady(s)
    && s.board[s.kingSq[s.stm]] == Code(s.stm, KING)
    && RightsBacked(s.castling, s.board)
    && (forall bit: nat :: bit < 4 && Has(s.castling, bit) && RightColor(bit) == s.stm ==> s.kingSq[s.stm] == KingHome(s.stm))
    && (s.epSq != NO_SQ ==>
          && s.board[s.epSq] == EMPTY_CODE
          && 0 <= EpVictim(s.stm, s.epSq) < 64
          && s.board[EpVictim(s.stm, s.epSq)] == Code(Other(s.stm), PAWN))
  }

  /** In a valid position a colour's occupancy holds exactly the squares with a piece of that
   *  colour on them. */
  lemma OccupancyMailbox(s: PosState, c: Color, sq: Square)
    requires Valid(s)
    ensures sq in Squares(s.occ[c]) <==> s.board[sq] != EMPTY_CODE && s.board[sq] / 6 == c
  {
    RebuildOccSquares(s);
    assert s.occ == RebuildOcc(s).occ;
    if s.board[sq] != EMPTY_CODE && s.board[sq] / 6 == c {
      var p := s.board[sq] % 6;
      assert s.board[sq] == Code(c, p);
      assert Has(s.bb[Code(c, p)], sq);
    }
  }

  /** What every move of `gen_pseudo` satisfies: it fits the position, a move onto an occupied
   *  square goes to a square the mover attacks, and a double push passes over an empty square
   *  in front of the pawn. */
  ghost predicate PseudoLegal(s: PosState, m: Move)
    requires Shaped(s)
  {
    var from, to, p := MoveFrom(m), MoveTo(m), MovePiece(m);
    && Fits(s, m)
    && (s.board[to] != EMPTY_CODE ==> to in PieceAttacks(s.stm, p, from, s.occAll))
    && (HasFlag(MoveFlags(m), MF_DBLPAWN) ==>
          && MoveFlags(m) == MF_DBLPAWN && p == PAWN
          && 0 <= from + PawnDir(s.stm) < 64 && to == from + 2 * PawnDir(s.stm)
          && s.board[from + PawnDir(s.stm)] == EMPTY_CODE)
  }

  /** A move without the en-passant or castling flag is pseudo-legal when its mover stands on
   *  `from` and its target holds the piece it names as captured, attacked from `from`, or
   *  nothing. */
  lemma PlainFits(s: PosState, from: Square, to: Square, p: Piece, cap: Piece, promo: Piece, flags: Byte)
    requires Shaped(s) && from != to && p < 6
    requires flags == MF_NONE || flags == MF_DBLPAWN || (flags == MF_PROMO && p == PAWN && promo < 6)
    requires s.board[from] == Code(s.stm, p) && (p == KING ==> s.kingSq[s.stm] == from)
    requires if cap == NO_PIECE then s.board[to] == EMPTY_CODE else s.board[to] == Code(Other(s.stm), cap)
    requires s.board[to] != EMPTY_CODE ==> to in PieceAttacks(s.stm, p, from, s.occAll)
    requires flags == MF_DBLPAWN ==>
      p == PAWN && 0 <= from + PawnDir(s.stm) < 64 && to == from + 2 * PawnDir(s.stm) && s.board[from + PawnDir(s.stm)] == EMPTY_CODE
    ensures PseudoLegal(s, MakeMove(from, to, p, cap, promo, flags))
  {
    ModSmall(from, 64);
    ModSmall(to, 64);
    ModSmall(p, 8);
    ModSmall(cap, 8);
    ModSmall(promo, 8);
    var m := MakeMove(from, to, p, cap, promo, flags);
    FieldsFit(s, m, from, to, p, cap, promo, flags);
  }

  lemma FieldsFit(s: PosState, m: Move, from: Square, to: Square, p: Piece, cap: Piece, promo: Piece, flags: Byte)
    requires Shaped(s) && from != to && p < 6
    requires MoveFrom(m) == from && MoveTo(m) == to && MovePiece(m) == p && MoveCap(m) == cap
    requires MovePromo(m) == promo && MoveFlags(m) == flags
    requires flags == MF_NONE || flags == MF_DBLPAWN || (flags == MF_PROMO && p == PAWN && promo < 6)
    requires s.board[from] == Code(s.stm, p) && (p == KING ==> s.kingSq[s.stm] == from)
    requires if cap == NO_PIECE then s.board[to] == EMPTY_CODE else s.board[to] == Code(Other(s.stm), cap)
    requires s.board[to] != EMPTY_CODE ==> to in PieceAttacks(s.stm, p, from, s.occAll)
    requires flags == MF_DBLPAWN ==>
      p == PAWN && 0 <= from + PawnDir(s.stm) < 64 && to == from + 2 * PawnDir(s.stm) && s.board[from + PawnDir(s.stm)] == EMPTY_CODE
    ensures PseudoLegal(s, m)
  {
    assert !HasFlag(flags, MF_EP) && !HasFlag(flags, MF_CASTLE);
    assert HasFlag(flags, MF_PROMO) <==> flags == MF_PROMO;
    assert HasFlag(flags, MF_DBLPAWN) <==> flags == MF_DBLPAWN;
  }

  lemma PromotionsFit(s: PosState, from: Square, to: Square, cap: Piece)
    requires Shaped(s) && from != to && s.board[from] == Code(s.stm, PAWN)
    requires if cap == NO_PIECE then s.board[to] == EMPTY_CODE else s.board[to] == Code(Other(s.stm), cap)
    requires s.board[to] != EMPTY_CODE ==> to in PawnTargets(s.stm, from)
    ensures forall m :: m in Promotions(from, to, cap) ==> PseudoLegal(s, m)
  {
    PlainFits(s, from, to, PAWN, cap, QUEEN, MF_PROMO);
    PlainFits(s, from, to, PAWN, cap, ROOK, MF_PROMO);
    PlainFits(s, from, to, PAWN, cap, BISHOP, MF_PROMO);
    PlainFits(s, from, to, PAWN, cap, KNIGHT, MF_PROMO);
  }

  lemma PawnPushesFit(s: PosState, from: Square)
    requires Shaped(s) && s.board[from] == Code(s.stm, PAWN)
    ensures forall m :: m in PawnPushes(s, from) ==> PseudoLegal(s, m)
  {
    var us := s.stm;
    var dir := PawnDir(us);
    var to1 := from + dir;
    if 0 <= to1 < 64 && s.board[to1] == EMPTY_CODE {
      if RankOf(from) == PromoRank(us) {
        PromotionsFit(s, from, to1, NO_PIECE);
      } else {
        PlainFits(s, from, to1, PAWN, NO_PIECE, NO_PIECE, MF_NONE);
        if RankOf(from) == StartRank(us) && s.board[from + 2 * dir] == EMPTY_CODE {
          PlainFits(s, from, from + 2 * dir, PAWN, NO_PIECE, NO_PIECE, MF_DBLPAWN);
        }
      }
    }
  }

  /** A pawn capture names the enemy piece standing on its target. */
  lemma PawnCaptureFits(s: PosState, from: Square, to: Square)
    requires Valid(s) && s.board[from] == Code(s.stm, PAWN) && to in PawnHits(s, from)
    ensures forall m :: m in PawnCapture(s.stm, from, to, s.board[to]) ==> PseudoLegal(s, m)
  {
    OccupancyMailbox(s, Other(s.stm), to);
    var cap := CodePiece(s.board[to]);
    assert s.board[to] == Code(Other(s.stm), cap);
    if RankOf(from) == PromoRank(s.stm) {
      PromotionsFit(s, from, to, cap);
    } else {
      PlainFits(s, from, to, PAWN, cap, NO_PIECE, MF_NONE);
    }
  }

  lemma {:induction false} PawnCapturesFit(s: PosState, from: Square, tos: seq<Square>)
    requires Valid(s) && s.board[from] == Code(s.stm, PAWN)
    requires forall i :: 0 <= i < |tos| ==> tos[i] in PawnHits(s, from)
    ensures forall m :: m in PawnCaptures(s.board, s.stm, from, tos) ==> PseudoLegal(s, m)
    decreases |tos|
  {
    if tos != [] {
      PawnCapturesFit(s, from, tos[..|tos| - 1]);
      PawnCaptureFits(s, from, tos[|tos| - 1]);
    }
  }

  /** The en-passant capture takes the pawn that passed over the en-passant square, which
   *  stands beside the capturing pawn. */
  lemma PawnEpFits(s: PosState, from: Square)
    requires Coherent(s) && s.board[from] == Code(s.stm, PAWN)
    ensures forall m :: m in PawnEp(s, from) ==> PseudoLegal(s, m)
  {
    if s.epSq != NO_SQ && s.epSq in PawnTargets(s.stm, from) {
      var to: Square := s.epSq;
      var v := EpVictim(s.stm, to);
      assert FileOf(v) == FileOf(to) && RankOf(v) == RankOf(from) by {
        if s.stm == WHITE {
          assert v == to - 8;
        } else {
          assert v == to + 8;
        }
      }
      EpMoveFits(s, from, to);
    }
  }

  lemma EpMoveFits(s: PosState, from: Square, to: Square)
    requires Shaped(s) && from != to && s.board[from] == Code(s.stm, PAWN) && s.board[to] == EMPTY_CODE
    requires 0 <= EpVictim(s.stm, to) < 64 && EpVictim(s.stm, to) != from
    requires s.board[EpVictim(s.stm, to)] == Code(Other(s.stm), PAWN)
    ensures PseudoLegal(s, MakeMove(from, to, PAWN, PAWN, NO_PIECE, MF_EP))
  {
    ModSmall(from, 64);
    ModSmall(to, 64);
    assert HasFlag(MF_EP, MF_EP) && !HasFlag(MF_EP, MF_CASTLE) && !HasFlag(MF_EP, MF_PROMO) && !HasFlag(MF_EP, MF_DBLPAWN);
  }

  lemma PawnMovesFit(s: PosState, from: Square)
    requires Coherent(s) && s.board[from] == Code(s.stm, PAWN)
    ensures forall m :: m in PawnMoves(s, from) ==> PseudoLegal(s, m)
  {
    PawnPushesFit(s, from);
    EnumerateMembers(PawnHits(s, from), 0);
    PawnCapturesFit(s, from, Ordered(PawnHits(s, from)));
    PawnEpFits(s, from);
  }

  lemma {:induction false} PawnsGenFit(s: PosState, froms: seq<Square>)
    requires Coherent(s)
    requires forall i :: 0 <= i < |froms| ==> froms[i] in Squares(s.bb[Code(s.stm, PAWN)])
    ensures forall m :: m in PawnsGen(s, froms) ==> PseudoLegal(s, m)
    decreases |froms|
  {
    if froms != [] {
      var from := froms[|froms| - 1];
      PawnsGenFit(s, froms[..|froms| - 1]);
      assert Has(s.bb[Code(s.stm, PAWN)], from);
      PawnMovesFit(s, from);
    }
  }

  /** A knight, bishop, rook, queen or king move lands on a square its own side does not hold,
   *  so it is a quiet move or a capture of the enemy piece there. */
  lemma TargetMovesFit(s: PosState, from: Square, p: Piece, tos: seq<Square>)
    requires Valid(s) && KNIGHT <= p <= KING
    requires s.board[from] == Code(s.stm, p) && (p == KING ==> s.kingSq[s.stm] == from)
    requires forall i :: 0 <= i < |tos| ==> tos[i] in Reach(s, p, from)
    ensures forall m :: m in TargetMoves(s.board, from, p, tos) ==> PseudoLegal(s, m)
  {
    forall i | 0 <= i < |tos|
      ensures PseudoLegal(s, TargetMoves(s.board, from, p, tos)[i])
    {
      TargetMoveFits(s, from, p, tos[i]);
    }
  }

  lemma TargetMoveFits(s: PosState, from: Square, p: Piece, to: Square)
    requires Valid(s) && KNIGHT <= p <= KING
    requires s.board[from] == Code(s.stm, p) && (p == KING ==> s.kingSq[s.stm] == from)
    requires to in Reach(s, p, from)
    ensures PseudoLegal(s, TargetMove(from, p, to, s.board[to]))
  {
    OccupancyMailbox(s, s.stm, to);
    OccupancyMailbox(s, s.stm, from);
    var cap := CaptureOf(s.board[to]);
    if cap != NO_PIECE {
      CodeSplit(s.board[to]);
    }
    PlainFits(s, from, to, p, cap, NO_PIECE, MF_NONE);
  }

  /** A board entry other than EMPTY_CODE is the code of its colour and piece. */
  lemma CodeSplit(code: BoardCode)
    requires code != EMPTY_CODE
    ensures 0 <= code / 6 < 2 && code == Code(code / 6, CodePiece(code))
  {
  }

  lemma {:induction false} PiecesGenFit(s: PosState, p: Piece, froms: seq<Square>)
    requires Valid(s) && KNIGHT <= p <= QUEEN
    requires forall i :: 0 <= i < |froms| ==> froms[i] in Squares(s.bb[Code(s.stm, p)])
    ensures forall m :: m in PiecesGen(s, p, froms) ==> PseudoLegal(s, m)
    decreases |froms|
  {
    if froms != [] {
      var from := froms[|froms| - 1];
      PiecesGenFit(s, p, froms[..|froms| - 1]);
      assert Has(s.bb[Code(s.stm, p)], from);
      EnumerateMembers(Reach(s, p, from), 0);
      TargetMovesFit(s, from, p, Ordered(Reach(s, p, from)));
    }
  }

  /** A castling move whose right is held: the king stands on its home square, the rook in the
   *  corner, and the squares between them are empty. */
  lemma CastleFits(s: PosState, bit: nat, to: Square, empty: set<Square>, safe: set<Square>)
    requires Coherent(s) && bit < 4 && RightColor(bit) == s.stm
    requires CornerOf(bit) == RookFrom(s.stm, to) && to in empty && RookTo(s.stm, to) in empty && RookTo(s.stm, to) != to
    requires KingHome(s.stm) !in empty && CornerOf(bit) !in empty
    ensures forall m :: m in Castle(s, bit, KingHome(s.stm), to, empty, safe) ==> PseudoLegal(s, m)
  {
    var from, rf, rt := KingHome(s.stm), RookFrom(s.stm, to), RookTo(s.stm, to);
    if Has(s.castling, bit) && (forall x :: x in empty ==> s.board[x] == EMPTY_CODE) {
      assert s.board[rf] == Code(s.stm, ROOK);
      assert s.board[to] == EMPTY_CODE && s.board[rt] == EMPTY_CODE;
      CastleMoveFits(s, from, to);
    }
  }

  lemma CastleMoveFits(s: PosState, from: Square, to: Square)
    requires Shaped(s) && from != to && s.board[from] == Code(s.stm, KING) && s.kingSq[s.stm] == from
    requires s.board[to] == EMPTY_CODE
    requires RookFrom(s.stm, to) != from && RookFrom(s.stm, to) != to
    requires RookTo(s.stm, to) != from && RookTo(s.stm, to) != to
    requires s.board[RookFrom(s.stm, to)] == Code(s.stm, ROOK) && s.board[RookTo(s.stm, to)] == EMPTY_CODE
    ensures PseudoLegal(s, MakeMove(from, to, KING, NO_PIECE, NO_PIECE, MF_CASTLE))
  {
    ModSmall(from, 64);
    ModSmall(to, 64);
    assert HasFlag(MF_CASTLE, MF_CASTLE) && !HasFlag(MF_CASTLE, MF_EP) && !HasFlag(MF_CASTLE, MF_PROMO) && !HasFlag(MF_CASTLE, MF_DBLPAWN);
  }

  /** Castling moves the king from its home square, past empty squares, with its rook in the
   *  corner. */
  lemma CastleGenFit(s: PosState)
    requires Coherent(s)
    ensures forall m :: m in CastleGen(s) ==> PseudoLegal(s, m)
  {
    if s.stm == WHITE {
      CastleFits(s, WK_BIT, 6, {5, 6}, {4, 5, 6});
      CastleFits(s, WQ_BIT, 2, {3, 2, 1}, {4, 3, 2});
    } else {
      CastleFits(s, BK_BIT, 62, {61, 62}, {60, 61, 62});
      CastleFits(s, BQ_BIT, 58, {59, 58, 57}, {60, 59, 58});
    }
  }

  /** Every move `gen_pseudo` produces in a coherent position fits it. */
  lemma GenFits(s: PosState)
    requires Coherent(s)
    ensures forall m :: m in GenSpec(s) ==> PseudoLegal(s, m)
  {
    forall p: RealPiece
      ensures forall i :: 0 <= i < |Own(s, p)| ==> Own(s, p)[i] in Squares(s.bb[Code(s.stm, p)])
    {
      EnumerateMembers(Squares(s.bb[Code(s.stm, p)]), 0);
    }
    PawnsGenFit(s, Own(s, PAWN));
    PiecesGenFit(s, KNIGHT, Own(s, KNIGHT));
    PiecesGenFit(s, BISHOP, Own(s, BISHOP));
    PiecesGenFit(s, ROOK, Own(s, ROOK));
    PiecesGenFit(s, QUEEN, Own(s, QUEEN));
    var k := s.kingSq[s.stm];
    EnumerateMembers(Reach(s, KING, k), 0);
    TargetMovesFit(s, k, KING, Ordered(Reach(s, KING, k)));
    CastleGenFit(s);
  }

  /** Hence every generated move can be made, leaves a valid position, and is taken back
   *  exactly by `unmake`. */
  lemma GenMakeUnmake(s: PosState, m: Move)
    requires Coherent(s) && m in GenSpec(s)
    ensures Fits(s, m)
    ensures Valid(MakeCorrected(s, m).0)
    ensures UnmakeDefined(MakeCorrected(s, m).0, m, MakeCorrected(s, m).1)
    ensures Unmake(MakeCorrected(s, m).0, m, MakeCorrected(s, m).1) == s
  {
    GenFits(s);
    MakeValid(s, m, CorrectedRights(s, m));
    MakeUnmake(s, m, CorrectedRights(s, m));
  }

  // ---------------------------------------------------------------- every generated move can be made

  /** What `make` needs of a move of `us` to stay inside its arrays, whatever else the position
   *  holds: the moving, captured and promotion pieces are real pieces, and the square of an
   *  en-passant victim and the square a double push passes over are on the board. */
  predicate CanMake(us: Color, m: Move)
  {
    && PiecesReal(m)
    && (NormalCapture(m) ==> MoveCap(m) < 6)
    && (HasFlag(MoveFlags(m), MF_EP) ==> 0 <= EpVictim(us, MoveTo(m)) < 64)
    && (HasFlag(MoveFlags(m), MF_DBLPAWN) ==> 0 <= MoveFrom(m) + PawnDir(us) < 64)
  }

  /** A move the generator packs with real pieces, a flag it uses, and the squares that flag
   *  needs on the board, can be made. */
  lemma PackedCanMake(us: Color, from: Square, to: Square, p: Piece, cap: Piece, promo: Piece, flags: Byte)
    requires p < 6 && (cap < 6 || cap == NO_PIECE)
    requires flags == MF_NONE || flags == MF_CASTLE || (flags == MF_PROMO && promo < 6)
          || (flags == MF_DBLPAWN && 0 <= from + PawnDir(us) < 64)
          || (flags == MF_EP && 0 <= EpVictim(us, to) < 64)
    ensures CanMake(us, MakeMove(from, to, p, cap, promo, flags))
  {
    ModSmall(from, 64);
    ModSmall(to, 64);
    ModSmall(p, 8);
    ModSmall(cap, 8);
    if flags == MF_PROMO {
      ModSmall(promo, 8);
    }
    FlagsAreDistinctBits(MF_EP, MF_PROMO);
    FlagsAreDistinctBits(MF_CASTLE, MF_PROMO);
    FlagsAreDistinctBits(MF_DBLPAWN, MF_PROMO);
    FlagsAreDistinctBits(MF_PROMO, MF_EP);
    FlagsAreDistinctBits(MF_CASTLE, MF_EP);
    FlagsAreDistinctBits(MF_DBLPAWN, MF_EP);
    FlagsAreDistinctBits(MF_EP, MF_DBLPAWN);
    FlagsAreDistinctBits(MF_CASTLE, MF_DBLPAWN);
    FlagsAreDistinctBits(MF_PROMO, MF_DBLPAWN);
  }

  lemma PromotionsCanMake(us: Color, from: Square, to: Square, cap: Piece)
    requires cap < 6 || cap == NO_PIECE
    ensures forall m :: m in Promotions(from, to, cap) ==> CanMake(us, m)
  {
    PackedCanMake(us, from, to, PAWN, cap, QUEEN, MF_PROMO);
    PackedCanMake(us, from, to, PAWN, cap, ROOK, MF_PROMO);
    PackedCanMake(us, from, to, PAWN, cap, BISHOP, MF_PROMO);
    PackedCanMake(us, from, to, PAWN, cap, KNIGHT, MF_PROMO);
  }

  /** A double push starts on the pawn's starting rank, so the square it passes over is on the
   *  board. */
  lemma PawnPushesCanMake(s: PosState, from: Square)
    requires Shaped(s)
    ensures forall m :: m in PawnPushes(s, from) ==> CanMake(s.stm, m)
  {
    var us := s.stm;
    var dir := PawnDir(us);
    var to1 := from + dir;
    if 0 <= to1 < 64 && s.board[to1] == EMPTY_CODE {
      if RankOf(from) == PromoRank(us) {
        PromotionsCanMake(us, from, to1, NO_PIECE);
      } else {
        PackedCanMake(us, from, to1, PAWN, NO_PIECE, NO_PIECE, MF_NONE);
        if RankOf(from) == StartRank(us) && s.board[from + 2 * dir] == EMPTY_CODE {
          PackedCanMake(us, from, from + 2 * dir, PAWN, NO_PIECE, NO_PIECE, MF_DBLPAWN);
        }
      }
    }
  }

  lemma {:induction false} PawnCapturesCanMake(board: seq<BoardCode>, us: Color, from: Square, tos: seq<Square>)
    requires |board| == 64
    ensures forall m :: m in PawnCaptures(board, us, from, tos) ==> CanMake(us, m)
    decreases |tos|
  {
    if tos != [] {
      var to := tos[|tos| - 1];
      PawnCapturesCanMake(board, us, from, tos[..|tos| - 1]);
      if RankOf(from) == PromoRank(us) {
        PromotionsCanMake(us, from, to, CodePiece(board[to]));
      } else {
        PackedCanMake(us, from, to, PAWN, CodePiece(board[to]), NO_PIECE, MF_NONE);
      }
    }
  }

  /** The en-passant square lies one rank ahead of the capturing pawn, so the victim behind it
   *  is on the board. */
  lemma PawnEpCanMake(s: PosState, from: Square)
    requires GenReady(s)
    ensures forall m :: m in PawnEp(s, from) ==> CanMake(s.stm, m)
  {
    if s.epSq != NO_SQ && s.epSq in PawnTargets(s.stm, from) {
      var to: Square := s.epSq;
      assert 0 <= EpVictim(s.stm, to) < 64 by {
        FileRankOfSquare(from);
        FileRankOfSquare(to);
      }
      PackedCanMake(s.stm, from, to, PAWN, PAWN, NO_PIECE, MF_EP);
    }
  }

  lemma {:induction false} PawnsGenCanMake(s: PosState, froms: seq<Square>)
    requires GenReady(s)
    ensures forall m :: m in PawnsGen(s, froms) ==> CanMake(s.stm, m)
    decreases |froms|
  {
    if froms != [] {
      var from := froms[|froms| - 1];
      PawnsGenCanMake(s, froms[..|froms| - 1]);
      PawnPushesCanMake(s, from);
      PawnCapturesCanMake(s.board, s.stm, from, Ordered(PawnHits(s, from)));
      PawnEpCanMake(s, from);
    }
  }

  lemma TargetMovesCanMake(board: seq<BoardCode>, us: Color, from: Square, p: Piece, tos: seq<Square>)
    requires |board| == 64 && p < 6
    ensures forall m :: m in TargetMoves(board, from, p, tos) ==> CanMake(us, m)
  {
    forall i | 0 <= i < |tos|
      ensures CanMake(us, TargetMoves(board, from, p, tos)[i])
    {
      PackedCanMake(us, from, tos[i], p, CaptureOf(board[tos[i]]), NO_PIECE, MF_NONE);
    }
  }

  lemma {:induction false} PiecesGenCanMake(s: PosState, p: Piece, froms: seq<Square>)
    requires Shaped(s) && p < 6
    ensures forall m :: m in PiecesGen(s, p, froms) ==> CanMake(s.stm, m)
    decreases |froms|
  {
    if froms != [] {
      var from := froms[|froms| - 1];
      PiecesGenCanMake(s, p, froms[..|froms| - 1]);
      TargetMovesCanMake(s.board, s.stm, from, p, Ordered(Reach(s, p, from)));
    }
  }

  lemma CastleGenCanMake(s: PosState)
    requires Shaped(s)
    ensures forall m :: m in CastleGen(s) ==> CanMake(s.stm, m)
  {
    PackedCanMake(s.stm, 4, 6, KING, NO_PIECE, NO_PIECE, MF_CASTLE);
    PackedCanMake(s.stm, 4, 2, KING, NO_PIECE, NO_PIECE, MF_CASTLE);
    PackedCanMake(s.stm, 60, 62, KING, NO_PIECE, NO_PIECE, MF_CASTLE);
    PackedCanMake(s.stm, 60, 58, KING, NO_PIECE, NO_PIECE, MF_CASTLE);
  }

  /** Every move `gen_pseudo` produces can be made, in any position it can run on: not only in
   *  a coherent one. */
  lemma GenCanMake(s: PosState)
    requires GenReady(s)
    ensures forall m :: m in GenSpec(s) ==> CanMake(s.stm, m)
  {
    PawnsGenCanMake(s, Own(s, PAWN));
    PiecesGenCanMake(s, KNIGHT, Own(s, KNIGHT));
    PiecesGenCanMake(s, BISHOP, Own(s, BISHOP));
    PiecesGenCanMake(s, ROOK, Own(s, ROOK));
    PiecesGenCanMake(s, QUEEN, Own(s, QUEEN));
    var k := s.kingSq[s.stm];
    TargetMovesCanMake(s.board, s.stm, k, KING, Ordered(Reach(s, KING, k)));
    CastleGenCanMake(s);
  }

  /** A move that can be made is defined for `make` in every position with the same side to
   *  move. */
  lemma CanMakeDefined(s: PosState, m: Move)
    requires CanMake(s.stm, m)
    ensures MakeDefined(s, m)
  {
  }

  // ---------------------------------------------------------------- nothing a piece can reach is missed

  lemma {:induction false} PiecesGenHas(s: PosState, p: Piece, froms: seq<Square>, k: nat, to: Square)
    requires Shaped(s) && KNIGHT <= p <= QUEEN && k < |froms| && to in Reach(s, p, froms[k])
    ensures TargetMove(froms[k], p, to, s.board[to]) in PiecesGen(s, p, froms)
    decreases |froms|
  {
    var from := froms[k];
    var init := froms[..|froms| - 1];
    PiecesGenStep(s, p, init, froms[|froms| - 1]);
    assert init + [froms[|froms| - 1]] == froms;
    if k < |init| {
      PiecesGenHas(s, p, init, k, to);
    } else {
      EnumerateMembers(Reach(s, p, from), 0);
      var tos := Ordered(Reach(s, p, from));
      var i :| 0 <= i < |tos| && tos[i] == to;
      assert TargetMoves(s.board, from, p, tos)[i] == TargetMove(from, p, to, s.board[to]);
    }
  }

  /** The generated list is the pawn, piece, king and castling lists one after the other. */
  lemma GenSpecParts(s: PosState, m: Move)
    requires GenReady(s)
    ensures m in GenSpec(s) <==>
      || m in PawnsGen(s, Own(s, PAWN))
      || m in PiecesGen(s, KNIGHT, Own(s, KNIGHT)) || m in PiecesGen(s, BISHOP, Own(s, BISHOP))
      || m in PiecesGen(s, ROOK, Own(s, ROOK)) || m in PiecesGen(s, QUEEN, Own(s, QUEEN))
      || m in KingGen(s) || m in CastleGen(s)
  {
  }

  /** Every square the king can step to gives a generated king move. */
  lemma KingGenHas(s: PosState, to: Square)
    requires GenReady(s) && to in Reach(s, KING, s.kingSq[s.stm])
    ensures TargetMove(s.kingSq[s.stm], KING, to, s.board[to]) in KingGen(s)
  {
    var from := s.kingSq[s.stm];
    EnumerateMembers(Reach(s, KING, from), 0);
    var tos := Ordered(Reach(s, KING, from));
    var i :| 0 <= i < |tos| && tos[i] == to;
    assert TargetMoves(s.board, from, KING, tos)[i] == TargetMove(from, KING, to, s.board[to]);
  }

  /** Every square a knight, bishop, rook or queen of the side to move can go to gives a
   *  generated move of that piece. */
  lemma PiecesGenComplete(s: PosState, p: Piece, from: Square, to: Square)
    requires Shaped(s) && KNIGHT <= p <= QUEEN && from in Squares(s.bb[Code(s.stm, p)])
    requires to in Reach(s, p, from)
    ensures TargetMove(from, p, to, s.board[to]) in PiecesGen(s, p, Own(s, p))
  {
    EnumerateMembers(Squares(s.bb[Code(s.stm, p)]), 0);
    var own := Own(s, p);
    var k :| 0 <= k < |own| && own[k] == from;
    PiecesGenHas(s, p, own, k, to);
  }

  /** Every square a knight, bishop, rook, queen or king of the side to move attacks and its
   *  own side does not hold gives a generated move. */
  lemma GenComplete(s: PosState, p: Piece, from: Square, to: Square)
    requires GenReady(s) && KNIGHT <= p <= KING && from in Squares(s.bb[Code(s.stm, p)])
    requires p == KING ==> from == s.kingSq[s.stm]
    requires to in Reach(s, p, from)
    ensures TargetMove(from, p, to, s.board[to]) in GenSpec(s)
  {
    var m := TargetMove(from, p, to, s.board[to]);
    if p == KING {
      KingGenHas(s, to);
    } else {
      PiecesGenComplete(s, p, from, to);
    }
    GenSpecParts(s, m);
  }

  // ---------------------------------------------------------------- nothing a pawn can do is missed

  lemma {:induction false} PawnsGenHas(s: PosState, froms: seq<Square>, k: nat, m: Move)
    requires GenReady(s) && k < |froms| && m in PawnMoves(s, froms[k])
    ensures m in PawnsGen(s, froms)
    decreases |froms|
  {
    if k < |froms| - 1 {
      PawnsGenHas(s, froms[..|froms| - 1], k, m);
    }
  }

  lemma {:induction false} PawnCapturesHas(board: seq<BoardCode>, us: Color, from: Square, tos: seq<Square>, i: nat, m: Move)
    requires |board| == 64 && i < |tos| && m in PawnCapture(us, from, tos[i], board[tos[i]])
    ensures m in PawnCaptures(board, us, from, tos)
    decreases |tos|
  {
    if i < |tos| - 1 {
      PawnCapturesHas(board, us, from, tos[..|tos| - 1], i, m);
    }
  }

  /** A move of one pawn of the side to move is in the generated list. */
  lemma PawnMoveGenerated(s: PosState, from: Square, m: Move)
    requires GenReady(s) && from in Squares(s.bb[Code(s.stm, PAWN)]) && m in PawnMoves(s, from)
    ensures m in GenSpec(s)
  {
    EnumerateMembers(Squares(s.bb[Code(s.stm, PAWN)]), 0);
    var own := Own(s, PAWN);
    var k :| 0 <= k < |own| && own[k] == from;
    PawnsGenHas(s, own, k, m);
    GenSpecParts(s, m);
  }

  /** A push onto the empty square ahead is generated: a quiet move, or each of the four
   *  promotions from the rank before the last. */
  lemma PawnPushGenerated(s: PosState, from: Square, promo: Piece)
    requires GenReady(s) && from in Squares(s.bb[Code(s.stm, PAWN)]) && KNIGHT <= promo <= QUEEN
    requires 0 <= from + PawnDir(s.stm) < 64 && s.board[from + PawnDir(s.stm)] == EMPTY_CODE
    ensures RankOf(from) == PromoRank(s.stm) ==> MakeMove(from, from + PawnDir(s.stm), PAWN, NO_PIECE, promo, MF_PROMO) in GenSpec(s)
    ensures RankOf(from) != PromoRank(s.stm) ==> MakeMove(from, from + PawnDir(s.stm), PAWN, NO_PIECE, NO_PIECE, MF_NONE) in GenSpec(s)
  {
    var to := from + PawnDir(s.stm);
    if RankOf(from) == PromoRank(s.stm) {
      var m := MakeMove(from, to, PAWN, NO_PIECE, promo, MF_PROMO);
      assert PawnPushes(s, from) == Promotions(from, to, NO_PIECE);
      assert Promotions(from, to, NO_PIECE)[QUEEN - promo] == m;
      PawnMoveGenerated(s, from, m);
    } else {
      var m := MakeMove(from, to, PAWN, NO_PIECE, NO_PIECE, MF_NONE);
      assert PawnPushes(s, from)[0] == m;
      PawnMoveGenerated(s, from, m);
    }
  }

  /** The double push from the starting rank over two empty squares is generated. */
  lemma PawnDoubleGenerated(s: PosState, from: Square)
    requires GenReady(s) && from in Squares(s.bb[Code(s.stm, PAWN)]) && RankOf(from) == StartRank(s.stm)
    requires s.board[from + PawnDir(s.stm)] == EMPTY_CODE && s.board[from + 2 * PawnDir(s.stm)] == EMPTY_CODE
    ensures MakeMove(from, from + 2 * PawnDir(s.stm), PAWN, NO_PIECE, NO_PIECE, MF_DBLPAWN) in GenSpec(s)
  {
    var m := MakeMove(from, from + 2 * PawnDir(s.stm), PAWN, NO_PIECE, NO_PIECE, MF_DBLPAWN);
    assert m in PawnPushes(s, from);
    PawnMoveGenerated(s, from, m);
  }

  /** The capture of an enemy piece on a square the pawn attacks is generated: a plain
   *  capture, or each of the four promotions from the rank before the last. */
  lemma PawnCaptureGenerated(s: PosState, from: Square, to: Square, promo: Piece)
    requires GenReady(s) && from in Squares(s.bb[Code(s.stm, PAWN)]) && KNIGHT <= promo <= QUEEN
    requires to in PawnTargets(s.stm, from) && to in Squares(s.occ[Other(s.stm)])
    ensures RankOf(from) == PromoRank(s.stm) ==> MakeMove(from, to, PAWN, CodePiece(s.board[to]), promo, MF_PROMO) in GenSpec(s)
    ensures RankOf(from) != PromoRank(s.stm) ==> MakeMove(from, to, PAWN, CodePiece(s.board[to]), NO_PIECE, MF_NONE) in GenSpec(s)
  {
    var us := s.stm;
    var m := if RankOf(from) == PromoRank(us) then MakeMove(from, to, PAWN, CodePiece(s.board[to]), promo, MF_PROMO)
             else MakeMove(from, to, PAWN, CodePiece(s.board[to]), NO_PIECE, MF_NONE);
    assert m in PawnCapture(us, from, to, s.board[to]);
    assert to in PawnHits(s, from);
    EnumerateMembers(PawnHits(s, from), 0);
    var tos := Ordered(PawnHits(s, from));
    var i :| 0 <= i < |tos| && tos[i] == to;
    PawnCapturesHas(s.board, us, from, tos, i, m);
    PawnMoveGenerated(s, from, m);
  }

  /** The en-passant capture onto the recorded square is generated when the pawn attacks it. */
  lemma PawnEpGenerated(s: PosState, from: Square)
    requires GenReady(s) && from in Squares(s.bb[Code(s.stm, PAWN)])
    requires s.epSq != NO_SQ && s.epSq in PawnTargets(s.stm, from)
    ensures MakeMove(from, s.epSq, PAWN, PAWN, NO_PIECE, MF_EP) in GenSpec(s)
  {
    var m := MakeMove(from, s.epSq, PAWN, PAWN, NO_PIECE, MF_EP);
    assert m in PawnEp(s, from);
    PawnMoveGenerated(s, from, m);
  }

  // ---------------------------------------------------------------- nothing castling allows is missed

  /** A castling move whose right is held, whose squares between king and rook are empty and
   *  whose king squares are not attacked is in its side's castling list. */
  lemma CastleFires(s: PosState, bit: nat, from: Square, to: Square, empty: set<Square>, safe: set<Square>)
    requires Shaped(s) && Has(s.castling, bit)
    requires forall x :: x in empty ==> s.board[x] == EMPTY_CODE
    requires forall x :: x in safe ==> !AttackedOn(s.bb, s.occAll, x, Other(s.stm))
    ensures Castle(s, bit, from, to, empty, safe) == [MakeMove(from, to, KING, NO_PIECE, NO_PIECE, MF_CASTLE)]
  {
  }

  /** The castling list is the tail of the generated list. */
  lemma CastleGenerated(s: PosState, m: Move)
    requires GenReady(s) && m in CastleGen(s)
    ensures m in GenSpec(s)
  {
    GenSpecParts(s, m);
  }

  /** White castles king side (e1 to g1) when the right is held, f1 and g1 are empty and
   *  none of e1, f1, g1 is attacked. */
  lemma WhiteShortGenerated(s: PosState)
    requires GenReady(s) && s.stm == WHITE && Has(s.castling, WK_BIT)
    requires s.board[5] == EMPTY_CODE && s.board[6] == EMPTY_CODE
    requires forall x :: 4 <= x <= 6 ==> !AttackedOn(s.bb, s.occAll, x, BLACK)
    ensures MakeMove(4, 6, KING, NO_PIECE, NO_PIECE, MF_CASTLE) in GenSpec(s)
  {
    CastleFires(s, WK_BIT, 4, 6, {5, 6}, {4, 5, 6});
    CastleGenerated(s, MakeMove(4, 6, KING, NO_PIECE, NO_PIECE, MF_CASTLE));
  }

  /** White castles queen side (e1 to c1) when the right is held, d1, c1 and b1 are empty
   *  and none of e1, d1, c1 is attacked. */
  lemma WhiteLongGenerated(s: PosState)
    requires GenReady(s) && s.stm == WHITE && Has(s.castling, WQ_BIT)
    requires s.board[3] == EMPTY_CODE && s.board[2] == EMPTY_CODE && s.board[1] == EMPTY_CODE
    requires forall x :: 2 <= x <= 4 ==> !AttackedOn(s.bb, s.occAll, x, BLACK)
    ensures MakeMove(4, 2, KING, NO_PIECE, NO_PIECE, MF_CASTLE) in GenSpec(s)
  {
    CastleFires(s, WQ_BIT, 4, 2, {3, 2, 1}, {4, 3, 2});
    CastleGenerated(s, MakeMove(4, 2, KING, NO_PIECE, NO_PIECE, MF_CASTLE));
  }

  /** Black castles king side (e8 to g8) when the right is held, f8 and g8 are empty and
   *  none of e8, f8, g8 is attacked. */
  lemma BlackShortGenerated(s: PosState)
    requires GenReady(s) && s.stm == BLACK && Has(s.castling, BK_BIT)
    requires s.board[61] == EMPTY_CODE && s.board[62] == EMPTY_CODE
    requires forall x :: 60 <= x <= 62 ==> !AttackedOn(s.bb, s.occAll, x, WHITE)
    ensures MakeMove(60, 62, KING, NO_PIECE, NO_PIECE, MF_CASTLE) in GenSpec(s)
  {
    CastleFires(s, BK_BIT, 60, 62, {61, 62}, {60, 61, 62});
    CastleGenerated(s, MakeMove(60, 62, KING, NO_PIECE, NO_PIECE, MF_CASTLE));
  }

  /** Black castles queen side (e8 to c8) when the right is held, d8, c8 and b8 are empty
   *  and none of e8, d8, c8 is attacked. */
  lemma BlackLongGenerated(s: PosState)
    requires GenReady(s) && s.stm == BLACK && Has(s.castling, BQ_BIT)
    requires s.board[59] == EMPTY_CODE && s.board[58] == EMPTY_CODE && s.board[57] == EMPTY_CODE
    requires forall x :: 58 <= x <= 60 ==> !AttackedOn(s.bb, s.occAll, x, WHITE)
    ensures MakeMove(60, 58, KING, NO_PIECE, NO_PIECE, MF_CASTLE) in GenSpec(s)
  {
    CastleFires(s, BQ_BIT, 60, 58, {59, 58, 57}, {60, 59, 58});
    CastleGenerated(s, MakeMove(60, 58, KING, NO_PIECE, NO_PIECE, MF_CASTLE));
  }
}
