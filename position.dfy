/** `Position` (position.h / position.cpp) as a class over arrays: `bb[2][6]` flattened to
 *  twelve boards indexed by `Code(c, p)`, the two colour occupancies, the mailbox and the king
 *  squares. Every method is proved to follow the functions of `PositionSpec`. */
module Position {
  import opened Types
  import opened Words
  import opened Bitboards
  import opened Moves
  import opened PositionSpec
  import opened Attacks
  import opened MoveGenSpec
  import Magics

  /** The position the constructor makes: no pieces, White to move, no rights, no ep square. */
  function EmptyState(): (s: PosState)
    ensures Shaped(s)
  {
    PosState(seq(12, _ => 0), [0, 0], 0, seq(64, _ => EMPTY_CODE), WHITE, 0, NO_SQ, [NO_SQ, NO_SQ])
  }

  /** The empty position is consistent: no board holds a square and no square holds a piece. */
  lemma EmptyValid()
    ensures Valid(EmptyState())
  {
    var s := EmptyState();
    EmptyAgree();
    EmptyUnion(WHITE);
    EmptyUnion(BLACK);
    ZeroUnionZero();
    assert RebuildOcc(s) == s;
  }

  /** No board of the empty position holds a square, and no square holds a piece. */
  lemma EmptyAgree()
    ensures Agree(EmptyState().bb, EmptyState().board)
  {
    var s := EmptyState();
    forall k, x | 0 <= k < 12 && 0 <= x < 64
      ensures Has(s.bb[k], x) <==> s.board[x] == k
    {
      HasZero(x);
    }
  }

  /** The union of no squares, taken board by board, is the empty board. */
  lemma EmptyUnion(c: Color)
    ensures UnionOf(EmptyState().bb, c, 6) == 0
  {
    ZeroUnionZero();
    var bb := EmptyState().bb;
    assert UnionOf(bb, c, 0) == 0;
    assert UnionOf(bb, c, 1) == 0;
    assert UnionOf(bb, c, 2) == 0;
    assert UnionOf(bb, c, 3) == 0;
    assert UnionOf(bb, c, 4) == 0;
    assert UnionOf(bb, c, 5) == 0;
  }

  /** `0 | 0 == 0`. */
  lemma ZeroUnionZero()
    ensures Union(0, 0) == 0
  {
    SquaresZero();
    SquaresInjective(Union(0, 0), 0);
  }

  // ---------------------------------------------------------------- attacks on a square

  /** Two boards share a square exactly when their `&` is non-zero. */
  lemma SharedSquare(a: Bitboard, b: Bitboard)
    ensures Inter(a, b) != 0 <==> exists f: Square :: f in Squares(a) && f in Squares(b)
  {
    NonZeroSquares(Inter(a, b));
    if Inter(a, b) != 0 {
      var f :| f in Squares(Inter(a, b));
      assert f in Squares(a) && f in Squares(b);
    }
    if exists f: Square :: f in Squares(a) && f in Squares(b) {
      var f: Square :| f in Squares(a) && f in Squares(b);
      assert f in Squares(Inter(a, b));
    }
  }

  /** The reverse lookup for pawns: a pawn of `side` attacks `sq` exactly when it stands on a
   *  square a pawn of the other side on `sq` would attack. */
  lemma PawnTest(bb: seq<Bitboard>, occAll: Bitboard, sq: Square, side: Color, tbl: Bitboard)
    requires |bb| == 12 && Squares(tbl) == PawnTargets(Other(side), sq)
    ensures Inter(tbl, bb[Code(side, PAWN)]) != 0 <==> HitBy(bb, occAll, sq, side, PAWN)
  {
    SharedSquare(tbl, bb[Code(side, PAWN)]);
    forall f: Square ensures f in PawnTargets(Other(side), sq) <==> sq in PawnTargets(side, f) {
      PawnSymmetric(side, f, sq);
    }
  }

  lemma KnightTest(bb: seq<Bitboard>, occAll: Bitboard, sq: Square, side: Color, tbl: Bitboard)
    requires |bb| == 12 && Squares(tbl) == KnightTargets(sq)
    ensures Inter(tbl, bb[Code(side, KNIGHT)]) != 0 <==> HitBy(bb, occAll, sq, side, KNIGHT)
  {
    SharedSquare(tbl, bb[Code(side, KNIGHT)]);
    forall f: Square ensures f in KnightTargets(sq) <==> sq in KnightTargets(f) {
      KnightSymmetric(sq, f);
    }
  }

  lemma KingTest(bb: seq<Bitboard>, occAll: Bitboard, sq: Square, side: Color, tbl: Bitboard)
    requires |bb| == 12 && Squares(tbl) == KingTargets(sq)
    ensures Inter(tbl, bb[Code(side, KING)]) != 0 <==> HitBy(bb, occAll, sq, side, KING)
  {
    SharedSquare(tbl, bb[Code(side, KING)]);
    forall f: Square ensures f in KingTargets(sq) <==> sq in KingTargets(f) {
      KingSymmetric(sq, f);
    }
  }

  /** The reverse lookup for sliders: the slider attacks from `sq` meet a bishop (or rook) or
   *  queen of `side` exactly when that piece attacks `sq`. */
  lemma SliderTest(rook: bool, bb: seq<Bitboard>, occAll: Bitboard, sq: Square, side: Color, a: Bitboard)
    requires |bb| == 12 && Squares(a) == SliderSet(rook, sq, occAll)
    ensures var own := if rook then ROOK else BISHOP;
      Inter(a, Union(bb[Code(side, own)], bb[Code(side, QUEEN)])) != 0
      <==> HitBy(bb, occAll, sq, side, own) || QueenHit(bb, occAll, sq, side, rook)
  {
    var own := if rook then ROOK else BISHOP;
    SharedSquare(a, Union(bb[Code(side, own)], bb[Code(side, QUEEN)]));
    forall f: Square ensures f in SliderSet(rook, sq, occAll) <==> sq in SliderSet(rook, f, occAll) {
      SliderSymmetric(rook, sq, f, occAll);
    }
  }

  /** Element-wise copy between two arrays of the same length. */
  method CopyArray<T>(dst: array<T>, src: array<T>)
    requires dst.Length == src.Length && dst != src
    modifies dst
    ensures dst[..] == src[..]
  {
    forall k | 0 <= k < dst.Length {
      dst[k] := src[k];
    }
  }

  class Position {
    var bb: array<Bitboard>
    var occ: array<Bitboard>
    var occAll: Bitboard
    var board: array<BoardCode>
    var stm: Color
    var castling: Byte
    var epSq: int
    var kingSq: array<int>
    /** Declared in the full `position.h`, which is not part of this model; `load_fen` sets them. */
    var halfmoveClock: int
    var fullmoveNumber: int

    ghost predicate Ready()
      reads this
    {
      && bb.Length == 12 && occ.Length == 2 && board.Length == 64 && kingSq.Length == 2
      && bb != occ
    }

    /** The array fields are the ones the object had in the pre-state. */
    twostate predicate SameArrays()
      reads this
    {
      bb == old(bb) && occ == old(occ) && board == old(board) && kingSq == old(kingSq)
    }

    /** The fields as a `PosState` value. */
    ghost function State(): (s: PosState)
      reads this, bb, occ, board, kingSq
      requires Ready()
      ensures Shaped(s)
    {
      PosState(bb[..], occ[..], occAll, board[..], stm, castling, epSq, kingSq[..])
    }

    /** `Position()`: an empty board. */
    constructor ()
      ensures Ready() && State() == EmptyState() && halfmoveClock == 0 && fullmoveNumber == 1
      ensures fresh(bb) && fresh(occ) && fresh(board) && fresh(kingSq)
    {
      bb := new Bitboard[12](_ => 0);
      occ := new Bitboard[2](_ => 0);
      occAll := 0;
      board := new BoardCode[64](_ => EMPTY_CODE);
      stm := WHITE;
      castling := 0;
      epSq := NO_SQ;
      kingSq := new int[2](_ => NO_SQ);
      halfmoveClock := 0;
      fullmoveNumber := 1;
      new;
      assert kingSq[..] == [NO_SQ, NO_SQ];
      assert occ[..] == [0, 0];
    }

    /** The implicit copy constructor (`Position p = root;`): fresh arrays holding the same
     *  contents, so that moves made on the copy leave `src` as it was. */
    constructor Copy(src: Position)
      requires src.Ready()
      ensures Ready() && State() == src.State()
      ensures fresh(bb) && fresh(occ) && fresh(board) && fresh(kingSq)
    {
      var sbb, socc, sboard, sking := src.bb[..], src.occ[..], src.board[..], src.kingSq[..];
      bb := new Bitboard[12](i => if 0 <= i < |sbb| then sbb[i] else 0);
      occ := new Bitboard[2](i => if 0 <= i < |socc| then socc[i] else 0);
      occAll := src.occAll;
      board := new BoardCode[64](i => if 0 <= i < |sboard| then sboard[i] else EMPTY_CODE);
      stm := src.stm;
      castling := src.castling;
      epSq := src.epSq;
      kingSq := new int[2](i => if 0 <= i < |sking| then sking[i] else NO_SQ);
      halfmoveClock := src.halfmoveClock;
      fullmoveNumber := src.fullmoveNumber;
      new;
      assert bb[..] == sbb && occ[..] == socc && board[..] == sboard && kingSq[..] == sking;
    }

    /** The copy assignment `out = p`: this position takes `src`'s contents into its own
     *  arrays. */
    method Assign(src: Position)
      requires Ready() && src.Ready()
      requires src.bb != bb && src.bb != occ && src.occ != bb && src.occ != occ && src.board != board && src.kingSq != kingSq
      modifies this, bb, occ, board, kingSq
      ensures Ready() && State() == old(src.State())
      ensures halfmoveClock == old(src.halfmoveClock) && fullmoveNumber == old(src.fullmoveNumber)
      ensures SameArrays()
    {
      CopyArray(bb, src.bb);
      CopyArray(occ, src.occ);
      CopyArray(board, src.board);
      CopyArray(kingSq, src.kingSq);
      occAll := src.occAll;
      stm := src.stm;
      castling := src.castling;
      epSq := src.epSq;
      halfmoveClock := src.halfmoveClock;
      fullmoveNumber := src.fullmoveNumber;
    }

    /** `rebuild_occ`: ors each colour's six boards into its occupancy, then both into
     *  `occAll`. */
    method RebuildOccupancy()
      requires Ready()
      modifies this, occ
      ensures Ready() && State() == RebuildOcc(old(State()))
      ensures bb == old(bb) && occ == old(occ) && board == old(board) && kingSq == old(kingSq)
      ensures halfmoveClock == old(halfmoveClock) && fullmoveNumber == old(fullmoveNumber)
    {
      occ[WHITE] := 0;
      occ[BLACK] := 0;
      for p := 0 to 6
        modifies occ
        invariant occ[WHITE] == UnionOf(bb[..], WHITE, p) && occ[BLACK] == UnionOf(bb[..], BLACK, p)
      {
        occ[WHITE] := Union(occ[WHITE], bb[Code(WHITE, p)]);
        occ[BLACK] := Union(occ[BLACK], bb[Code(BLACK, p)]);
      }
      occAll := Union(occ[WHITE], occ[BLACK]);
      assert occ[..] == [occ[WHITE], occ[BLACK]];
    }

    /** `is_attacked`: reverse lookups from `sq` (pawn, knight, king tables, then bishop and
     *  rook attacks over `occAll`) against the pieces of `side` (`by` in the source). True
     *  exactly when some piece of `side` attacks `sq`. */
    method IsAttacked(sq: Square, side: Color, atk: LeaperTables, mt: Magics.MagicTables) returns (r: bool)
      requires Ready() && atk.Valid() && atk.Filled() && mt.Valid() && mt.Sound()
      ensures r <==> AttackedOn(bb[..], occAll, sq, side)
      ensures Valid(State()) ==> (r <==> Attacked(State(), sq, side))
    {
      r := AttackTests(sq, side, atk, mt);
      AttackedCases(bb[..], occAll, sq, side);
      QueenLines(bb[..], occAll, sq, side);
      if Valid(State()) {
        AttackedMailbox(State(), sq, side);
      }
    }

    /** The five tests of `is_attacked`, in its order, each true exactly when a piece of the
     *  kinds it looks for attacks `sq`. */
    method AttackTests(sq: Square, side: Color, atk: LeaperTables, mt: Magics.MagicTables) returns (r: bool)
      requires Ready() && atk.Valid() && atk.Filled() && mt.Valid() && mt.Sound()
      ensures var bbv := bb[..];
        r <==> (|| HitBy(bbv, occAll, sq, side, PAWN) || HitBy(bbv, occAll, sq, side, KNIGHT)
                || HitBy(bbv, occAll, sq, side, KING)
                || HitBy(bbv, occAll, sq, side, BISHOP) || QueenHit(bbv, occAll, sq, side, false)
                || HitBy(bbv, occAll, sq, side, ROOK) || QueenHit(bbv, occAll, sq, side, true))
    {
      ghost var bbv := bb[..];
      var pawnTbl := if side == WHITE then atk.pawn[BLACK, sq] else atk.pawn[WHITE, sq];
      PawnTest(bbv, occAll, sq, side, pawnTbl);
      if Inter(pawnTbl, bb[Code(side, PAWN)]) != 0 {
        return true;
      }
      KnightTest(bbv, occAll, sq, side, atk.knight[sq]);
      if Inter(atk.knight[sq], bb[Code(side, KNIGHT)]) != 0 {
        return true;
      }
      KingTest(bbv, occAll, sq, side, atk.king[sq]);
      if Inter(atk.king[sq], bb[Code(side, KING)]) != 0 {
        return true;
      }
      var bq := Union(bb[Code(side, BISHOP)], bb[Code(side, QUEEN)]);
      var rq := Union(bb[Code(side, ROOK)], bb[Code(side, QUEEN)]);
      var ba := mt.BishopAttacks(sq, occAll);
      SliderTest(false, bbv, occAll, sq, side, ba);
      if Inter(ba, bq) != 0 {
        return true;
      }
      var ra := mt.RookAttacks(sq, occAll);
      SliderTest(true, bbv, occAll, sq, side, ra);
      if Inter(ra, rq) != 0 {
        return true;
      }
      return false;
    }

    // ------------------------------------------------------------ gen_pseudo

    /** `gen_pseudo`: the pseudo-legal moves of the side to move, in the generator's order. */
    method GenPseudo(atk: LeaperTables, mt: Magics.MagicTables) returns (ml: seq<Move>)
      requires Ready() && GenReady(State()) && atk.Valid() && atk.Filled() && mt.Valid() && mt.Sound()
      ensures ml == GenSpec(State())
    {
      var pawns := GenPawns(atk);
      var knights := GenPieces(KNIGHT, atk, mt);
      var bishops := GenPieces(BISHOP, atk, mt);
      var rooks := GenPieces(ROOK, atk, mt);
      var queens := GenPieces(QUEEN, atk, mt);
      var king := GenKing(atk);
      var castles := GenCastles(atk, mt);
      ml := pawns + knights + bishops + rooks + queens + king + castles;
    }

    /** The pawn loop: every pawn of the side to move, lowest square first. */
    method GenPawns(atk: LeaperTables) returns (ml: seq<Move>)
      requires Ready() && GenReady(State()) && atk.Valid() && atk.Filled()
      ensures ml == PawnsGen(State(), Own(State(), PAWN))
    {
      var pawns := bb[Code(stm, PAWN)];
      SquareListOrdered(pawns);
      ghost var done: seq<Square> := [];
      ml := [];
      while pawns != 0
        invariant done + SquareList(pawns) == SquareList(bb[Code(stm, PAWN)])
        invariant ml == PawnsGen(State(), done)
        decreases |SquareList(pawns)|
      {
        var from, rest := PopLsb(pawns);
        var moves := GenPawn(from, atk);
        PawnsGenStep(State(), done, from);
        PopStep(done, from, pawns, rest, SquareList(bb[Code(stm, PAWN)]));
        ml := ml + moves;
        done := done + [from];
        pawns := rest;
      }
      PopDone(done, pawns, SquareList(bb[Code(stm, PAWN)]));
    }

    /** One pawn's pushes, captures and en-passant capture. */
    method GenPawn(from: Square, atk: LeaperTables) returns (ml: seq<Move>)
      requires Ready() && GenReady(State()) && atk.Valid() && atk.Filled()
      ensures ml == PawnMoves(State(), from)
    {
      var pushes := GenPawnPushes(from);
      var tbl := atk.pawn[stm, from];
      var caps := Inter(tbl, occ[Other(stm)]);
      SquareListOrdered(caps);
      var captures := GenPawnCaptures(from, caps);
      var ep := GenPawnEp(from, tbl);
      ml := pushes + captures + ep;
    }

    /** The pushes of the pawn on `from`: single, double from the starting rank, or the four
     *  promotions from the rank before the last. */
    method GenPawnPushes(from: Square) returns (ml: seq<Move>)
      requires Ready()
      ensures ml == PawnPushes(State(), from)
    {
      var us := stm;
      var r := RankOf(from);
      var dir := if us == WHITE then 8 else -8;
      var startRank := if us == WHITE then 1 else 6;
      var promoRank := if us == WHITE then 6 else 1;
      var to1 := from + dir;
      ml := [];
      if 0 <= to1 < 64 && board[to1] == EMPTY_CODE {
        if r == promoRank {
          ml := Promotions(from, to1, NO_PIECE);
        } else {
          ml := [MakeMove(from, to1, PAWN, NO_PIECE, NO_PIECE, MF_NONE)];
          if r == startRank {
            var to2 := from + 2 * dir;
            if board[to2] == EMPTY_CODE {
              ml := ml + [MakeMove(from, to2, PAWN, NO_PIECE, NO_PIECE, MF_DBLPAWN)];
            }
          }
        }
      }
    }

    /** The en-passant test of the pawn on `from`, whose attack table entry is `tbl`. */
    method GenPawnEp(from: Square, tbl: Bitboard) returns (ml: seq<Move>)
      requires Ready() && GenReady(State()) && Squares(tbl) == PawnTargets(stm, from)
      ensures ml == PawnEp(State(), from)
    {
      ml := [];
      if epSq != NO_SQ {
        SharedSquare(tbl, SqBB(epSq));
        if Inter(tbl, SqBB(epSq)) != 0 {
          ml := [MakeMove(from, epSq, PAWN, PAWN, NO_PIECE, MF_EP)];
        }
      }
    }

    /** The capture loop of one pawn over the enemy pieces it attacks. */
    method GenPawnCaptures(from: Square, caps0: Bitboard) returns (ml: seq<Move>)
      requires Ready()
      ensures ml == PawnCaptures(board[..], stm, from, SquareList(caps0))
    {
      ghost var b := board[..];
      var caps := caps0;
      ghost var done: seq<Square> := [];
      ml := [];
      while caps != 0
        invariant done + SquareList(caps) == SquareList(caps0)
        invariant ml == PawnCaptures(b, stm, from, done)
        decreases |SquareList(caps)|
      {
        var to, rest := PopLsb(caps);
        PawnCapturesStep(b, stm, from, done, to);
        PopStep(done, to, caps, rest, SquareList(caps0));
        ml := ml + PawnCapture(stm, from, to, board[to]);
        done := done + [to];
        caps := rest;
      }
      PopDone(done, caps, SquareList(caps0));
    }

    /** The squares a knight, bishop, rook, queen or king of the side to move attacks from
     *  `from`: the leaper tables and the slider lookups over `occAll`. */
    method PieceTargets(p: Piece, from: Square, atk: LeaperTables, mt: Magics.MagicTables) returns (a: Bitboard)
      requires Ready() && KNIGHT <= p <= KING && atk.Valid() && atk.Filled() && mt.Valid() && mt.Sound()
      ensures Squares(a) == PieceAttacks(stm, p, from, occAll)
    {
      if p == KNIGHT {
        a := atk.knight[from];
      } else if p == BISHOP {
        a := mt.BishopAttacks(from, occAll);
      } else if p == ROOK {
        a := mt.RookAttacks(from, occAll);
      } else if p == QUEEN {
        var ra := mt.RookAttacks(from, occAll);
        var ba := mt.BishopAttacks(from, occAll);
        a := Union(ra, ba);
      } else {
        a := atk.king[from];
      }
    }

    /** The knight, bishop, rook or queen loop: every such piece of the side to move, lowest
     *  square first, onto the squares it attacks that its own side does not hold. */
    method GenPieces(p: Piece, atk: LeaperTables, mt: Magics.MagicTables) returns (ml: seq<Move>)
      requires Ready() && KNIGHT <= p <= QUEEN && atk.Valid() && atk.Filled() && mt.Valid() && mt.Sound()
      ensures ml == PiecesGen(State(), p, Own(State(), p))
    {
      var usOcc := occ[stm];
      var pieces := bb[Code(stm, p)];
      SquareListOrdered(pieces);
      ghost var done: seq<Square> := [];
      ml := [];
      while pieces != 0
        invariant done + SquareList(pieces) == SquareList(bb[Code(stm, p)])
        invariant ml == PiecesGen(State(), p, done)
        decreases |SquareList(pieces)|
      {
        var from, rest := PopLsb(pieces);
        var a := PieceTargets(p, from, atk, mt);
        var moves := Minus(a, usOcc);
        SquareListOrdered(moves);
        var fromMoves := GenTargets(from, p, moves);
        PiecesGenStep(State(), p, done, from);
        PopStep(done, from, pieces, rest, SquareList(bb[Code(stm, p)]));
        ml := ml + fromMoves;
        done := done + [from];
        pieces := rest;
      }
      PopDone(done, pieces, SquareList(bb[Code(stm, p)]));
    }

    /** The king's steps from `kingSq[stm]`. */
    method GenKing(atk: LeaperTables) returns (ml: seq<Move>)
      requires Ready() && GenReady(State()) && atk.Valid() && atk.Filled()
      ensures ml == KingGen(State())
    {
      var from := kingSq[stm];
      var moves := Minus(atk.king[from], occ[stm]);
      SquareListOrdered(moves);
      ml := GenTargets(from, KING, moves);
    }

    /** The target loop: one move per square of `moves0`, lowest first, naming the piece on
     *  the target when there is one. */
    method GenTargets(from: Square, p: Piece, moves0: Bitboard) returns (ml: seq<Move>)
      requires Ready()
      ensures ml == TargetMoves(board[..], from, p, SquareList(moves0))
    {
      var moves := moves0;
      ghost var done: seq<Square> := [];
      ml := [];
      while moves != 0
        invariant done + SquareList(moves) == SquareList(moves0)
        invariant ml == TargetMoves(board[..], from, p, done)
        decreases |SquareList(moves)|
      {
        var to, rest := PopLsb(moves);
        ml := ml + [TargetMove(from, p, to, board[to])];
        done := done + [to];
        moves := rest;
      }
      PopDone(done, moves, SquareList(moves0));
    }

    /** `!is_attacked(a, side) && !is_attacked(b, side) && !is_attacked(c, side)`, stopping at
     *  the first attacked square. */
    method NoneAttacked(a: Square, b: Square, c: Square, side: Color, atk: LeaperTables, mt: Magics.MagicTables) returns (r: bool)
      requires Ready() && atk.Valid() && atk.Filled() && mt.Valid() && mt.Sound()
      ensures r <==> forall x :: x in {a, b, c} ==> !AttackedOn(bb[..], occAll, x, side)
    {
      var hit := IsAttacked(a, side, atk, mt);
      if hit {
        return false;
      }
      hit := IsAttacked(b, side, atk, mt);
      if hit {
        return false;
      }
      hit := IsAttacked(c, side, atk, mt);
      return !hit;
    }

    /** The castling tests: the right, the empty squares between king and rook, then the
     *  king's squares not attacked; king side first. */
    method GenCastles(atk: LeaperTables, mt: Magics.MagicTables) returns (ml: seq<Move>)
      requires Ready() && atk.Valid() && atk.Filled() && mt.Valid() && mt.Sound()
      ensures ml == CastleGen(State())
    {
      BitTest(castling, WK_BIT);
      BitTest(castling, WQ_BIT);
      BitTest(castling, BK_BIT);
      BitTest(castling, BQ_BIT);
      var kingSide, queenSide;
      if stm == WHITE {
        kingSide := CastleIf(And(castling, 1) != 0 && board[5] == EMPTY_CODE && board[6] == EMPTY_CODE,
          WK_BIT, 4, 6, {5, 6}, 5, atk, mt);
        queenSide := CastleIf(And(castling, 2) != 0 && board[3] == EMPTY_CODE && board[2] == EMPTY_CODE && board[1] == EMPTY_CODE,
          WQ_BIT, 4, 2, {3, 2, 1}, 3, atk, mt);
      } else {
        kingSide := CastleIf(And(castling, 4) != 0 && board[61] == EMPTY_CODE && board[62] == EMPTY_CODE,
          BK_BIT, 60, 62, {61, 62}, 61, atk, mt);
        queenSide := CastleIf(And(castling, 8) != 0 && board[59] == EMPTY_CODE && board[58] == EMPTY_CODE && board[57] == EMPTY_CODE,
          BQ_BIT, 60, 58, {59, 58, 57}, 59, atk, mt);
      }
      ml := kingSide + queenSide;
    }

    /** One castling test once the right and the empty squares have been checked (`clear`):
     *  the king's square `from`, the square it crosses `via` and its target `to` must not be
     *  attacked by the other side. */
    method CastleIf(clear: bool, bit: nat, from: Square, to: Square, ghost empty: set<Square>, via: Square,
                    atk: LeaperTables, mt: Magics.MagicTables) returns (ml: seq<Move>)
      requires Ready() && atk.Valid() && atk.Filled() && mt.Valid() && mt.Sound()
      requires clear <==> Has(castling, bit) && forall x :: x in empty ==> board[x] == EMPTY_CODE
      ensures ml == Castle(State(), bit, from, to, empty, {from, via, to})
    {
      ml := [];
      if clear {
        var safe := NoneAttacked(from, via, to, Other(stm), atk, mt);
        if safe {
          ml := [MakeMove(from, to, KING, NO_PIECE, NO_PIECE, MF_CASTLE)];
        }
      }
    }

    /** `bb[..][..] ^= sq_bb(sq)` on board `i`. */
    method FlipBit(i: int, sq: Square)
      requires Ready() && 0 <= i < 12
      modifies bb
      ensures bb[..] == Flip(old(bb[..]), i, sq)
    {
      bb[i] := Toggle(bb[i], SqBB(sq));
    }

    /** The capture step of `make`: an ordinary capture takes the captured piece off the
     *  target and reports the target's entry. */
    method TakeCaptured(m: Move) returns (captured: int)
      requires Ready() && MakeDefined(State(), m)
      modifies bb, board
      ensures captured == (if NormalCapture(m) then old(board[MoveTo(m)]) else EMPTY_CODE)
      ensures bb[..] == (if NormalCapture(m) then Flip(old(bb[..]), Code(Other(stm), MoveCap(m)), MoveTo(m)) else old(bb[..]))
      ensures board[..] == (if NormalCapture(m) then old(board[..])[MoveTo(m) := EMPTY_CODE] else old(board[..]))
    {
      captured := EMPTY_CODE;
      var to := MoveTo(m);
      if MoveCap(m) != NO_PIECE && !HasFlag(MoveFlags(m), MF_EP) {
        captured := board[to];
        FlipBit(Code(Other(stm), MoveCap(m)), to);
        board[to] := EMPTY_CODE;
      }
    }

    /** The en-passant step of `make`: the pawn behind the target is taken off and its entry
     *  reported. */
    method TakeEpVictim(m: Move, captured0: int) returns (captured: int)
      requires Ready() && MakeDefined(State(), m)
      modifies bb, board
      ensures var v := EpVictim(stm, MoveTo(m));
        captured == (if HasFlag(MoveFlags(m), MF_EP) then old(board[v]) else captured0)
      ensures var v := EpVictim(stm, MoveTo(m));
        bb[..] == (if HasFlag(MoveFlags(m), MF_EP) then Flip(old(bb[..]), Code(Other(stm), PAWN), v) else old(bb[..]))
      ensures var v := EpVictim(stm, MoveTo(m));
        board[..] == (if HasFlag(MoveFlags(m), MF_EP) then old(board[..])[v := EMPTY_CODE] else old(board[..]))
    {
      captured := captured0;
      if HasFlag(MoveFlags(m), MF_EP) {
        var capSq := EpVictim(stm, MoveTo(m));
        captured := board[capSq];
        FlipBit(Code(Other(stm), PAWN), capSq);
        board[capSq] := EMPTY_CODE;
      }
    }

    /** The castling step of `make`: the rook goes from its corner to its destination. */
    method MoveCastlingRook(m: Move)
      requires Ready()
      modifies bb, board
      ensures var us, to := stm, MoveTo(m);
        bb[..] == (if HasFlag(MoveFlags(m), MF_CASTLE)
                   then Flip(Flip(old(bb[..]), Code(us, ROOK), RookFrom(us, to)), Code(us, ROOK), RookTo(us, to))
                   else old(bb[..]))
      ensures var us, to := stm, MoveTo(m);
        board[..] == (if HasFlag(MoveFlags(m), MF_CASTLE)
                      then old(board[..])[RookFrom(us, to) := EMPTY_CODE][RookTo(us, to) := Code(us, ROOK)]
                      else old(board[..]))
    {
      if HasFlag(MoveFlags(m), MF_CASTLE) {
        var rf, rt := RookFrom(stm, MoveTo(m)), RookTo(stm, MoveTo(m));
        FlipBit(Code(stm, ROOK), rf);
        FlipBit(Code(stm, ROOK), rt);
        board[rf] := EMPTY_CODE;
        board[rt] := Code(stm, ROOK);
      }
    }

    /** The last board step of `make`: the promotion piece, or the mover, lands on the target. */
    method PlaceMover(m: Move)
      requires Ready() && PiecesReal(m)
      modifies bb, board
      ensures bb[..] == Flip(old(bb[..]), Code(stm, Placed(m)), MoveTo(m))
      ensures board[..] == old(board[..])[MoveTo(m) := Code(stm, Placed(m))]
    {
      var to := MoveTo(m);
      if HasFlag(MoveFlags(m), MF_PROMO) {
        FlipBit(Code(stm, MovePromo(m)), to);
        board[to] := Code(stm, MovePromo(m));
      } else {
        FlipBit(Code(stm, MovePiece(m)), to);
        board[to] := Code(stm, MovePiece(m));
      }
    }

    /** The piece moves of `make`, in its order: an ordinary capture, lifting the mover, an
     *  en-passant victim, a castling rook, then the placed piece. */
    method MovePieces(m: Move) returns (captured: int)
      requires Ready() && MakeDefined(State(), m)
      modifies bb, board
      ensures bb[..] == MakeBitboards(old(State()), m)
      ensures board[..] == MakeBoard(old(State()), m)
      ensures captured == MakeCaptured(old(State()), m)
    {
      ghost var s := State();
      captured := TakeCaptured(m);
      FlipBit(Code(stm, MovePiece(m)), MoveFrom(m));
      board[MoveFrom(m)] := EMPTY_CODE;
      captured := TakeEpVictim(m, captured);
      MoveCastlingRook(m);
      PlaceMover(m);
    }

    /** The rights update of `make` as written, in its order: a king move clears its side's
     *  two rights, a rook leaving a corner clears that corner's. */
    static method WriteRights(castling: Byte, us: Color, m: Move) returns (c: Byte)
      ensures c == RightsAsWritten(castling, us, MovePiece(m), MoveFrom(m))
    {
      c := castling;
      if MovePiece(m) == KING {
        c := And(c, if us == WHITE then 252 else 243);
      }
      if MovePiece(m) == ROOK {
        c := CornerRights(c, MoveFrom(m));
      }
    }

    /** The corrected rights update: as written, then an ordinary capture on a corner clears
     *  that corner's right as well. */
    static method CorrectRights(castling: Byte, us: Color, m: Move) returns (c: Byte)
      ensures c == Rights(castling, us, MovePiece(m), MoveFrom(m), if NormalCapture(m) then MoveTo(m) else NO_SQ)
    {
      c := WriteRights(castling, us, m);
      if NormalCapture(m) {
        c := CornerRights(c, MoveTo(m));
      }
    }

    /** `make` up to the occupancy rebuild: moves the pieces, then updates the king square,
     *  writes the rights `rights` and the ep square and passes the move. */
    method MakeFields(m: Move, rights: Byte) returns (u: Undo)
      requires Ready() && MakeDefined(State(), m)
      modifies this, bb, board, kingSq
      ensures Ready() && bb == old(bb) && occ == old(occ) && board == old(board) && kingSq == old(kingSq)
      ensures State() == Moved(old(State()), m, rights)
      ensures u == MakeWith(old(State()), m, rights).1
      ensures halfmoveClock == old(halfmoveClock) && fullmoveNumber == old(fullmoveNumber)
    {
      ghost var s := State();
      var from, to, p := MoveFrom(m), MoveTo(m), MovePiece(m);
      var us := stm;
      u := Undo(castling, epSq, EMPTY_CODE);
      var captured := MovePieces(m);
      u := u.(capturedCode := captured);
      castling := rights;
      if p == KING {
        kingSq[us] := to;
      }
      epSq := NO_SQ;
      if HasFlag(MoveFlags(m), MF_DBLPAWN) {
        epSq := if us == WHITE then from + 8 else from - 8;
      }
      stm := Other(us);
      assert kingSq[..] == (if p == KING then s.kingSq[us := to] else s.kingSq);
    }

    /** `make` as written: moves the pieces on both the piece boards and the mailbox, updates
     *  the king square, the castling rights and the ep square, passes the move and rebuilds the
     *  occupancy. The undo record holds the old rights, the old ep square and the captured
     *  entry. */
    method Make(m: Move) returns (u: Undo)
      requires Ready() && MakeDefined(State(), m)
      modifies this, bb, occ, board, kingSq
      ensures Ready() && bb == old(bb) && occ == old(occ) && board == old(board) && kingSq == old(kingSq)
      ensures (State(), u) == PositionSpec.Make(old(State()), m)
      ensures halfmoveClock == old(halfmoveClock) && fullmoveNumber == old(fullmoveNumber)
    {
      var rights := WriteRights(castling, stm, m);
      u := MakeFields(m, rights);
      RebuildOccupancy();
    }

    /** `make` with the capture-corner correction of `Rights` (see Findings). */
    method MakeCorrected(m: Move) returns (u: Undo)
      requires Ready() && MakeDefined(State(), m)
      modifies this, bb, occ, board, kingSq
      ensures Ready() && bb == old(bb) && occ == old(occ) && board == old(board) && kingSq == old(kingSq)
      ensures (State(), u) == PositionSpec.MakeCorrected(old(State()), m)
      ensures halfmoveClock == old(halfmoveClock) && fullmoveNumber == old(fullmoveNumber)
    {
      var rights := CorrectRights(castling, stm, m);
      u := MakeFields(m, rights);
      RebuildOccupancy();
    }

    /** The first piece step of `unmake`: the placed piece leaves the target and the mover
     *  (a pawn, for a promotion) returns to the origin. */
    method ReturnMover(m: Move, us: Color)
      requires Ready() && PiecesReal(m)
      modifies bb, board
      ensures bb[..] == Flip(Flip(old(bb[..]), Code(us, Placed(m)), MoveTo(m)), Code(us, Mover(m)), MoveFrom(m))
      ensures board[..] == old(board[..])[MoveTo(m) := EMPTY_CODE][MoveFrom(m) := Code(us, Mover(m))]
    {
      var from, to := MoveFrom(m), MoveTo(m);
      if HasFlag(MoveFlags(m), MF_PROMO) {
        FlipBit(Code(us, MovePromo(m)), to);
        board[to] := EMPTY_CODE;
        FlipBit(Code(us, PAWN), from);
        board[from] := Code(us, PAWN);
      } else {
        FlipBit(Code(us, MovePiece(m)), to);
        board[to] := EMPTY_CODE;
        FlipBit(Code(us, MovePiece(m)), from);
        board[from] := Code(us, MovePiece(m));
      }
    }

    /** The castling step of `unmake`: the rook goes back to its corner. */
    method ReturnCastlingRook(m: Move, us: Color)
      requires Ready()
      modifies bb, board
      ensures var to := MoveTo(m);
        bb[..] == (if HasFlag(MoveFlags(m), MF_CASTLE)
                   then Flip(Flip(old(bb[..]), Code(us, ROOK), RookTo(us, to)), Code(us, ROOK), RookFrom(us, to))
                   else old(bb[..]))
      ensures var to := MoveTo(m);
        board[..] == (if HasFlag(MoveFlags(m), MF_CASTLE)
                      then old(board[..])[RookTo(us, to) := EMPTY_CODE][RookFrom(us, to) := Code(us, ROOK)]
                      else old(board[..]))
    {
      if HasFlag(MoveFlags(m), MF_CASTLE) {
        var rf, rt := RookFrom(us, MoveTo(m)), RookTo(us, MoveTo(m));
        FlipBit(Code(us, ROOK), rt);
        FlipBit(Code(us, ROOK), rf);
        board[rt] := EMPTY_CODE;
        board[rf] := Code(us, ROOK);
      }
    }

    /** The last step of `unmake`: a captured entry returns behind the target (en passant) or
     *  to the target. */
    method ReturnCaptured(m: Move, u: Undo, us: Color)
      requires Ready() && 0 <= u.capturedCode <= EMPTY_CODE
      requires u.capturedCode != EMPTY_CODE && HasFlag(MoveFlags(m), MF_EP) ==> 0 <= EpVictim(us, MoveTo(m)) < 64
      modifies bb, board
      ensures var to, cc := MoveTo(m), u.capturedCode;
        bb[..] == (if cc == EMPTY_CODE then old(bb[..])
                   else if HasFlag(MoveFlags(m), MF_EP) then Flip(old(bb[..]), Code(Other(us), PAWN), EpVictim(us, to))
                   else Flip(old(bb[..]), Code(Other(us), CodePiece(cc)), to))
      ensures var to, cc := MoveTo(m), u.capturedCode;
        board[..] == (if cc == EMPTY_CODE then old(board[..])
                      else if HasFlag(MoveFlags(m), MF_EP) then old(board[..])[EpVictim(us, to) := cc]
                      else old(board[..])[to := cc])
    {
      var to := MoveTo(m);
      if u.capturedCode != EMPTY_CODE {
        if HasFlag(MoveFlags(m), MF_EP) {
          var capSq := EpVictim(us, to);
          board[capSq] := u.capturedCode;
          FlipBit(Code(Other(us), PAWN), capSq);
        } else {
          board[to] := u.capturedCode;
          FlipBit(Code(Other(us), CodePiece(u.capturedCode)), to);
        }
      }
    }

    /** The piece moves of `unmake`, in its order, for the position `s` the fields held
     *  before the move was passed back. */
    method ReturnPieces(m: Move, u: Undo, us: Color, ghost s: PosState)
      requires Ready() && Shaped(s) && UnmakeDefined(s, m, u) && us == Other(s.stm)
      requires s.bb == bb[..] && s.board == board[..]
      modifies bb, board
      ensures bb[..] == UnmakeBitboards(s, m, u)
      ensures board[..] == UnmakeBoard(s, m, u)
    {
      ReturnMover(m, us);
      ReturnCastlingRook(m, us);
      ReturnCaptured(m, u, us);
    }

    /** `unmake` up to the occupancy rebuild: passes the move back, restores the rights and
     *  the ep square from the undo record and moves the pieces back. */
    method UnmakeFields(m: Move, u: Undo)
      requires Ready() && UnmakeDefined(State(), m, u)
      modifies this, bb, board, kingSq
      ensures Ready() && bb == old(bb) && occ == old(occ) && board == old(board) && kingSq == old(kingSq)
      ensures State() == Unmoved(old(State()), m, u)
      ensures halfmoveClock == old(halfmoveClock) && fullmoveNumber == old(fullmoveNumber)
    {
      ghost var s := State();
      stm := Other(stm);
      var us := stm;
      assert us == Other(s.stm);
      castling := u.castling;
      epSq := u.epSq;
      ReturnPieces(m, u, us, s);
      if MovePiece(m) == KING {
        kingSq[us] := MoveFrom(m);
      }
      assert kingSq[..] == (if MovePiece(m) == KING then s.kingSq[us := MoveFrom(m)] else s.kingSq);
    }

    /** `unmake`: passes the move back, restores the rights and ep square from the undo record,
     *  moves the pieces back, returning the captured entry to its square, and rebuilds the
     *  occupancy. */
    method Unmake(m: Move, u: Undo)
      requires Ready() && UnmakeDefined(State(), m, u)
      modifies this, bb, occ, board, kingSq
      ensures Ready() && bb == old(bb) && occ == old(occ) && board == old(board) && kingSq == old(kingSq)
      ensures State() == PositionSpec.Unmake(old(State()), m, u)
      ensures halfmoveClock == old(halfmoveClock) && fullmoveNumber == old(fullmoveNumber)
    {
      UnmakeFields(m, u);
      RebuildOccupancy();
    }
  }
}
