/** The position record (position.h) as a value, and `make` / `unmake` (position.cpp) as
 *  functions on it. The `Position` class in position.dfy is proved to follow these. */
module PositionSpec {
  import opened Types
  import opened Words
  import opened Bitboards
  import opened Moves

  /** `board[]` entry for an empty square. */
  const EMPTY_CODE: int := 12

  /** Castling-right bits, as bit indices of `castling`: WK = 1, WQ = 2, BK = 4, BQ = 8. */
  const WK_BIT: nat := 0
  const WQ_BIT: nat := 1
  const BK_BIT: nat := 2
  const BQ_BIT: nat := 3

  /** A real piece (NO_PIECE excluded). */
  type RealPiece = p: int | 0 <= p < 6

  /** A `board[]` entry: a piece code or EMPTY_CODE. */
  type BoardCode = c: int | 0 <= c <= 12

  /** `code(c, p)`, that is `c * 6 + p`: the `board[]` entry of a piece, also the index of its
   *  bitboard in the flattened `bb[2][6]`. The colour is 0 or 1, so the product is written as a
   *  choice. */
  function Code(c: Color, p: RealPiece): (r: int)
    ensures 0 <= r < 12
    ensures CodePiece(r) == p && r / 6 == c
  {
    if c == WHITE then p else 6 + p
  }

  /** `code_piece`: the piece of a board entry. */
  function CodePiece(code: nat): (p: int)
    ensures 0 <= p < 6
  {
    code % 6
  }

  /** EMPTY_CODE is no piece's code, yet it decodes to PAWN: callers must test for it first. */
  lemma EmptyCodeDecodesPawn(c: Color, p: RealPiece)
    ensures Code(c, p) != EMPTY_CODE
    ensures CodePiece(EMPTY_CODE) == PAWN
  {
  }

  lemma CodeInjective(c1: Color, p1: RealPiece, c2: Color, p2: RealPiece)
    ensures Code(c1, p1) == Code(c2, p2) <==> c1 == c2 && p1 == p2
  {
  }

  /** What `make` saves for `unmake`. */
  datatype Undo = Undo(castling: Byte, epSq: int, capturedCode: int)

  /** The fields of `Position`; `bb` is `bb[2][6]` flattened, indexed by `Code(c, p)`. */
  datatype PosState = PosState(
    bb: seq<Bitboard>,
    occ: seq<Bitboard>,
    occAll: Bitboard,
    board: seq<BoardCode>,
    stm: Color,
    castling: Byte,
    epSq: int,
    kingSq: seq<int>)

  predicate Shaped(s: PosState)
  {
    |s.bb| == 12 && |s.occ| == 2 && |s.board| == 64 && |s.kingSq| == 2
  }

  // ---------------------------------------------------------------- occupancy

  /** The union of the first `n` piece boards of colour `c`, in the order `rebuild_occ` ors them. */
  function UnionOf(bb: seq<Bitboard>, c: Color, n: int): Bitboard
    requires |bb| == 12 && 0 <= n <= 6
  {
    if n == 0 then 0 else Union(UnionOf(bb, c, n - 1), bb[Code(c, n - 1)])
  }

  /** A square is in the union exactly when one of the first `n` piece boards holds it. */
  lemma {:induction false} UnionOfSquares(bb: seq<Bitboard>, c: Color, n: int)
    requires |bb| == 12 && 0 <= n <= 6
    ensures forall sq :: sq in Squares(UnionOf(bb, c, n)) <==> exists p :: 0 <= p < n && sq in Squares(bb[Code(c, p)])
  {
    if n == 0 {
      SquaresZero();
    } else {
      UnionOfSquares(bb, c, n - 1);
    }
  }

  /** `rebuild_occ`: each colour's occupancy is the union of its six piece boards, and `occAll`
   *  the union of both colours; nothing else changes. */
  function RebuildOcc(s: PosState): (r: PosState)
    requires Shaped(s)
    ensures Shaped(r)
    ensures r.(occ := s.occ, occAll := s.occAll) == s
  {
    var w := UnionOf(s.bb, WHITE, 6);
    var b := UnionOf(s.bb, BLACK, 6);
    s.(occ := [w, b], occAll := Union(w, b))
  }

  /** After `rebuild_occ` each colour's occupancy is the union of its six piece boards, and
   *  `occAll` the union of both colours. */
  lemma RebuildOccSquares(s: PosState)
    requires Shaped(s)
    ensures forall c: Color, sq :: sq in Squares(RebuildOcc(s).occ[c]) <==> exists p :: 0 <= p < 6 && sq in Squares(s.bb[Code(c, p)])
    ensures Squares(RebuildOcc(s).occAll) == Squares(RebuildOcc(s).occ[WHITE]) + Squares(RebuildOcc(s).occ[BLACK])
  {
    UnionOfSquares(s.bb, WHITE, 6);
    UnionOfSquares(s.bb, BLACK, 6);
  }

  predicate OccConsistent(s: PosState)
    requires Shaped(s)
  {
    RebuildOcc(s) == s
  }

  // ---------------------------------------------------------------- board and bitboards agree

  /** Every piece board holds exactly the squares whose `board[]` entry is its code. */
  predicate Agree(bb: seq<Bitboard>, board: seq<BoardCode>)
    requires |bb| == 12 && |board| == 64
  {
    forall k, x :: 0 <= k < 12 && 0 <= x < 64 ==> (Has(bb[k], x) <==> board[x] == k)
  }

  /** A position whose bitboards, mailbox and occupancy describe the same pieces. */
  predicate Valid(s: PosState)
  {
    Shaped(s) && Agree(s.bb, s.board) && OccConsistent(s)
  }

  /** The mailbox determines the piece boards. */
  lemma AgreeDetermines(bb1: seq<Bitboard>, bb2: seq<Bitboard>, board: seq<BoardCode>)
    requires |bb1| == 12 && |bb2| == 12 && |board| == 64
    requires Agree(bb1, board) && Agree(bb2, board)
    ensures bb1 == bb2
  {
    forall k | 0 <= k < 12
      ensures bb1[k] == bb2[k]
    {
      forall x: Square
        ensures x in Squares(bb1[k]) <==> x in Squares(bb2[k])
      {
        assert Has(bb1[k], x) <==> board[x] == k;
        assert Has(bb2[k], x) <==> board[x] == k;
      }
      assert Squares(bb1[k]) == Squares(bb2[k]);
      SquaresInjective(bb1[k], bb2[k]);
    }
  }


  // ---------------------------------------------------------------- one square at a time

  /** `bb[..][..] ^= sq_bb(sq)` on piece board `i`: the bitboard half of every step of `make`
   *  and `unmake`. */
  function Flip(bb: seq<Bitboard>, i: int, sq: Square): (r: seq<Bitboard>)
    requires |bb| == 12 && 0 <= i < 12
    ensures |r| == 12
  {
    bb[i := Toggle(bb[i], SqBB(sq))]
  }

  /** `Flip` toggles square `sq` of piece board `i` and leaves the other boards alone. */
  lemma FlipSquares(bb: seq<Bitboard>, i: int, sq: Square)
    requires |bb| == 12 && 0 <= i < 12
    ensures forall x: Square :: Has(Flip(bb, i, sq)[i], x) <==> (Has(bb[i], x) != (x == sq))
    ensures forall k :: 0 <= k < 12 && k != i ==> Flip(bb, i, sq)[k] == bb[k]
  {
    var r := Flip(bb, i, sq);
    forall x: Square ensures Has(r[i], x) <==> (Has(bb[i], x) != (x == sq)) {
      assert x in Squares(r[i]) <==> Has(r[i], x);
      assert x in Squares(bb[i]) <==> Has(bb[i], x);
    }
  }

  /** Taking a piece off its square, or putting one on an empty square, on both the mailbox
   *  and the piece boards keeps them in agreement. */
  lemma FlipAgree(bb: seq<Bitboard>, board: seq<BoardCode>, i: int, sq: Square, v: BoardCode)
    requires |bb| == 12 && |board| == 64 && 0 <= i < 12 && Agree(bb, board)
    requires (board[sq] == i && v == EMPTY_CODE) || (board[sq] == EMPTY_CODE && v == i)
    ensures Agree(Flip(bb, i, sq), board[sq := v])
  {
    FlipSquares(bb, i, sq);
  }

  // ---------------------------------------------------------------- make

  /** The square of the pawn an en-passant capture by `us` landing on `to` removes. */
  function EpVictim(us: Color, to: int): int
  {
    if us == WHITE then to - 8 else to + 8
  }

  /** The rook's corner and destination for a castling move of `us` landing on `to`. */
  function RookFrom(us: Color, to: int): Square
  {
    if us == WHITE then (if to == 6 then 7 else 0) else (if to == 62 then 63 else 56)
  }

  function RookTo(us: Color, to: int): Square
  {
    if us == WHITE then (if to == 6 then 5 else 3) else (if to == 62 then 61 else 59)
  }

  /** The four corner tests of `make`: a rook leaving `sq` gives up that corner's right
   *  (`castling &= ~WQ` and so on, `~WQ` being the int -3 before narrowing). */
  function CornerRights(castling: Byte, sq: int): (r: Byte)
  {
    var c0 := if sq == 0 then And(castling, 253) else castling;
    var c1 := if sq == 7 then And(c0, 254) else c0;
    var c2 := if sq == 56 then And(c1, 247) else c1;
    if sq == 63 then And(c2, 251) else c2
  }

  /** The rights update of `make` as written: a king move clears both rights of its side, a
   *  rook leaving a corner clears that corner's right. */
  function RightsAsWritten(castling: Byte, us: Color, p: int, from: int): (r: Byte)
  {
    var c1 := if p == KING then And(castling, if us == WHITE then 252 else 243) else castling;
    if p == ROOK then CornerRights(c1, from) else c1
  }

  /** The rights update with the corner of a capture also cleared (see Findings): a rook
   *  taken on its corner can no longer castle. */
  function Rights(castling: Byte, us: Color, p: int, from: int, capturedOn: int): (r: Byte)
  {
    CornerRights(RightsAsWritten(castling, us, p, from), capturedOn)
  }

  /** The corner whose rook a castling right belongs to: WK h1, WQ a1, BK h8, BQ a8. */
  function CornerOf(bit: nat): Square
    requires bit < 4
  {
    if bit == WK_BIT then 7 else if bit == WQ_BIT then 0 else if bit == BK_BIT then 63 else 56
  }

  /** The side a castling right belongs to. */
  function RightColor(bit: nat): Color
    requires bit < 4
  {
    if bit < 2 then WHITE else BLACK
  }

  /** The low four bits of the masks `make` ands the rights with. */
  lemma MaskBits(bit: nat)
    requires bit < 4
    ensures Has(253, bit) <==> bit != WQ_BIT
    ensures Has(254, bit) <==> bit != WK_BIT
    ensures Has(247, bit) <==> bit != BQ_BIT
    ensures Has(251, bit) <==> bit != BK_BIT
    ensures Has(252, bit) <==> RightColor(bit) != WHITE
    ensures Has(243, bit) <==> RightColor(bit) != BLACK
  {
    if bit == 0 {
    } else if bit == 1 {
      assert Has(253, 1) == Has(126, 0);
    } else if bit == 2 {
      assert Has(251, 2) == Has(62, 0);
    } else {
      assert Has(247, 3) == Has(30, 0);
    }
  }

  /** The corner tests clear exactly the right of the corner tested. */
  lemma CornerRightsHas(castling: Byte, sq: int, bit: nat)
    requires bit < 4
    ensures Has(CornerRights(castling, sq), bit) <==> Has(castling, bit) && sq != CornerOf(bit)
  {
    var c0 := if sq == 0 then And(castling, 253) else castling;
    var c1 := if sq == 7 then And(c0, 254) else c0;
    var c2 := if sq == 56 then And(c1, 247) else c1;
    MaskBits(bit);
    HasAnd(castling, 253, bit);
    HasAnd(c0, 254, bit);
    HasAnd(c1, 247, bit);
    HasAnd(c2, 251, bit);
  }

  /** A right survives the update of `make` as written unless the king of its side moved or a
   *  rook left its corner. */
  lemma RightsAsWrittenHas(castling: Byte, us: Color, p: int, from: int, bit: nat)
    requires bit < 4
    ensures Has(RightsAsWritten(castling, us, p, from), bit)
        <==> Has(castling, bit) && !(p == KING && RightColor(bit) == us) && !(p == ROOK && from == CornerOf(bit))
  {
    var c1 := if p == KING then And(castling, if us == WHITE then 252 else 243) else castling;
    MaskBits(bit);
    HasAnd(castling, if us == WHITE then 252 else 243, bit);
    CornerRightsHas(c1, from, bit);
  }

  /** A right survives the corrected update unless the king of its side moved, a rook left its
   *  corner, or a piece was captured on its corner. */
  lemma RightsHas(castling: Byte, us: Color, p: int, from: int, capturedOn: int, bit: nat)
    requires bit < 4
    ensures Has(Rights(castling, us, p, from, capturedOn), bit)
        <==> && Has(castling, bit) && !(p == KING && RightColor(bit) == us)
             && !(p == ROOK && from == CornerOf(bit)) && capturedOn != CornerOf(bit)
  {
    RightsAsWrittenHas(castling, us, p, from, bit);
    CornerRightsHas(RightsAsWritten(castling, us, p, from), capturedOn, bit);
  }

  /** The moving and promotion pieces are real pieces. */
  predicate PiecesReal(m: Move)
  {
    MovePiece(m) < 6 && (HasFlag(MoveFlags(m), MF_PROMO) ==> MovePromo(m) < 6)
  }

  /** The piece that lands on the target: the promotion piece, or the mover. */
  function Placed(m: Move): RealPiece
    requires PiecesReal(m)
  {
    if HasFlag(MoveFlags(m), MF_PROMO) then MovePromo(m) else MovePiece(m)
  }

  /** The piece that left the origin: a pawn when promoting, else the mover. */
  function Mover(m: Move): RealPiece
    requires PiecesReal(m)
  {
    if HasFlag(MoveFlags(m), MF_PROMO) then PAWN else MovePiece(m)
  }

  /** The conditions under which `make` stays inside its arrays. */
  predicate MakeDefined(s: PosState, m: Move)
  {
    var flags := MoveFlags(m);
    && PiecesReal(m)
    && (MoveCap(m) != NO_PIECE && !HasFlag(flags, MF_EP) ==> MoveCap(m) < 6)
    && (HasFlag(flags, MF_EP) ==> 0 <= EpVictim(s.stm, MoveTo(m)) < 64)
  }

  /** An ordinary capture: a captured piece and no en-passant flag. */
  predicate NormalCapture(m: Move)
  {
    MoveCap(m) != NO_PIECE && !HasFlag(MoveFlags(m), MF_EP)
  }

  /** The mailbox half of `make`: empty the target of an ordinary capture, lift the mover, remove
   *  an en-passant victim, move a castling rook, then drop the placed piece on the target. */
  function MakeBoard(s: PosState, m: Move): (r: seq<BoardCode>)
    requires Shaped(s) && MakeDefined(s, m)
    ensures |r| == 64
  {
    var from, to, flags, us := MoveFrom(m), MoveTo(m), MoveFlags(m), s.stm;
    var b1 := if NormalCapture(m) then s.board[to := EMPTY_CODE] else s.board;
    var b2 := b1[from := EMPTY_CODE];
    var b3 := if HasFlag(flags, MF_EP) then b2[EpVictim(us, to) := EMPTY_CODE] else b2;
    var b4 := if HasFlag(flags, MF_CASTLE) then b3[RookFrom(us, to) := EMPTY_CODE][RookTo(us, to) := Code(us, ROOK)] else b3;
    b4[to := Code(us, Placed(m))]
  }

  /** The bitboard half of `make`, the same steps on the piece boards. */
  function MakeBitboards(s: PosState, m: Move): (r: seq<Bitboard>)
    requires Shaped(s) && MakeDefined(s, m)
    ensures |r| == 12
  {
    var from, to, flags, us, them := MoveFrom(m), MoveTo(m), MoveFlags(m), s.stm, Other(s.stm);
    var bb1 := if NormalCapture(m) then Flip(s.bb, Code(them, MoveCap(m)), to) else s.bb;
    var bb2 := Flip(bb1, Code(us, MovePiece(m)), from);
    var bb3 := if HasFlag(flags, MF_EP) then Flip(bb2, Code(them, PAWN), EpVictim(us, to)) else bb2;
    var bb4 := if HasFlag(flags, MF_CASTLE) then Flip(Flip(bb3, Code(us, ROOK), RookFrom(us, to)), Code(us, ROOK), RookTo(us, to)) else bb3;
    Flip(bb4, Code(us, Placed(m)), to)
  }

  /** What `make` records as captured: the target's entry for an ordinary capture, the entry
   *  behind the target (read after the mover has been lifted) for en passant. */
  function MakeCaptured(s: PosState, m: Move): BoardCode
    requires Shaped(s) && MakeDefined(s, m)
  {
    if HasFlag(MoveFlags(m), MF_EP) then s.board[MoveFrom(m) := EMPTY_CODE][EpVictim(s.stm, MoveTo(m))]
    else if NormalCapture(m) then s.board[MoveTo(m)]
    else EMPTY_CODE
  }

  /** The rights `make` writes, as written: only the mover's side and corner lose rights. */
  function WrittenRights(s: PosState, m: Move): Byte
  {
    RightsAsWritten(s.castling, s.stm, MovePiece(m), MoveFrom(m))
  }

  /** The rights of the corrected `make`: an ordinary capture on a corner also clears that
   *  corner's right. */
  function CorrectedRights(s: PosState, m: Move): Byte
  {
    Rights(s.castling, s.stm, MovePiece(m), MoveFrom(m), if NormalCapture(m) then MoveTo(m) else NO_SQ)
  }

  /** Every field `make` sets before it rebuilds the occupancy: the pieces moved, the king
   *  square, the new rights `castling`, the ep square of a double push, the side passed. */
  function Moved(s: PosState, m: Move, castling: Byte): (t: PosState)
    requires Shaped(s) && MakeDefined(s, m)
    ensures Shaped(t)
  {
    var from, to, p, us := MoveFrom(m), MoveTo(m), MovePiece(m), s.stm;
    var kingSq := if p == KING then s.kingSq[us := to] else s.kingSq;
    var ep := if HasFlag(MoveFlags(m), MF_DBLPAWN) then (if us == WHITE then from + 8 else from - 8) else NO_SQ;
    s.(bb := MakeBitboards(s, m), board := MakeBoard(s, m), stm := Other(us),
       castling := castling, epSq := ep, kingSq := kingSq)
  }

  /** `make` writing the rights `castling`, with the undo record it returns. */
  function MakeWith(s: PosState, m: Move, castling: Byte): (PosState, Undo)
    requires Shaped(s) && MakeDefined(s, m)
  {
    (RebuildOcc(Moved(s, m, castling)), Undo(s.castling, s.epSq, MakeCaptured(s, m)))
  }

  /** `make` (position.cpp) as written. */
  function Make(s: PosState, m: Move): (PosState, Undo)
    requires Shaped(s) && MakeDefined(s, m)
  {
    MakeWith(s, m, WrittenRights(s, m))
  }

  /** `make` with the capture-corner correction of `Rights` (see Findings). */
  function MakeCorrected(s: PosState, m: Move): (PosState, Undo)
    requires Shaped(s) && MakeDefined(s, m)
  {
    MakeWith(s, m, CorrectedRights(s, m))
  }

  /** The two `make`s differ only on a capture onto a corner: every other move, in
   *  particular every move of a game in which no piece is taken on a1, h1, a8 or h8, is made
   *  the same way by both. */
  lemma MakeAgrees(s: PosState, m: Move)
    requires Shaped(s) && MakeDefined(s, m)
    requires !NormalCapture(m) || (MoveTo(m) != 0 && MoveTo(m) != 7 && MoveTo(m) != 56 && MoveTo(m) != 63)
    ensures Make(s, m) == MakeCorrected(s, m)
  {
    assert CorrectedRights(s, m) == WrittenRights(s, m);
  }

  // ---------------------------------------------------------------- unmake

  /** The conditions under which `unmake` stays inside its arrays. */
  predicate UnmakeDefined(s: PosState, m: Move, u: Undo)
  {
    && PiecesReal(m)
    && 0 <= u.capturedCode <= EMPTY_CODE
    && (u.capturedCode != EMPTY_CODE && HasFlag(MoveFlags(m), MF_EP) ==> 0 <= EpVictim(Other(s.stm), MoveTo(m)) < 64)
  }

  /** The mailbox half of `unmake`: clear the target, put the mover back on the origin, move a
   *  castling rook back, restore the captured entry. */
  function UnmakeBoard(s: PosState, m: Move, u: Undo): (r: seq<BoardCode>)
    requires Shaped(s) && UnmakeDefined(s, m, u)
    ensures |r| == 64
  {
    var from, to, flags, us := MoveFrom(m), MoveTo(m), MoveFlags(m), Other(s.stm);
    var b1 := s.board[to := EMPTY_CODE][from := Code(us, Mover(m))];
    var b2 := if HasFlag(flags, MF_CASTLE) then b1[RookTo(us, to) := EMPTY_CODE][RookFrom(us, to) := Code(us, ROOK)] else b1;
    var cc := u.capturedCode;
    if cc == EMPTY_CODE then b2
    else if HasFlag(flags, MF_EP) then b2[EpVictim(us, to) := cc]
    else b2[to := cc]
  }

  /** The bitboard half of `unmake`. */
  function UnmakeBitboards(s: PosState, m: Move, u: Undo): (r: seq<Bitboard>)
    requires Shaped(s) && UnmakeDefined(s, m, u)
    ensures |r| == 12
  {
    var from, to, flags, us, them := MoveFrom(m), MoveTo(m), MoveFlags(m), Other(s.stm), s.stm;
    var bb1 := Flip(Flip(s.bb, Code(us, Placed(m)), to), Code(us, Mover(m)), from);
    var bb2 := if HasFlag(flags, MF_CASTLE) then Flip(Flip(bb1, Code(us, ROOK), RookTo(us, to)), Code(us, ROOK), RookFrom(us, to)) else bb1;
    var cc := u.capturedCode;
    if cc == EMPTY_CODE then bb2
    else if HasFlag(flags, MF_EP) then Flip(bb2, Code(them, PAWN), EpVictim(us, to))
    else Flip(bb2, Code(them, CodePiece(cc)), to)
  }

  /** Every field `unmake` sets before it rebuilds the occupancy. */
  function Unmoved(s: PosState, m: Move, u: Undo): (t: PosState)
    requires Shaped(s) && UnmakeDefined(s, m, u)
    ensures Shaped(t)
  {
    var us := Other(s.stm);
    var kingSq := if MovePiece(m) == KING then s.kingSq[us := MoveFrom(m)] else s.kingSq;
    s.(bb := UnmakeBitboards(s, m, u), board := UnmakeBoard(s, m, u), stm := us,
       castling := u.castling, epSq := u.epSq, kingSq := kingSq)
  }

  /** `unmake` (position.cpp). */
  function Unmake(s: PosState, m: Move, u: Undo): PosState
    requires Shaped(s) && UnmakeDefined(s, m, u)
  {
    RebuildOcc(Unmoved(s, m, u))
  }

  // ---------------------------------------------------------------- make then unmake

  /** A move that fits the position it is made in, as the generator produces them: the mover
   *  stands on `from`; the target holds the captured enemy piece or nothing; an en-passant
   *  victim is an enemy pawn behind an empty target; a castling rook stands on its corner
   *  with its destination empty and only a king castles; only pawns promote; at most one special flag is set; and a
   *  king's recorded square is where it stands. */
  predicate Fits(s: PosState, m: Move)
    requires Shaped(s)
  {
    var from, to, p, cap, flags := MoveFrom(m), MoveTo(m), MovePiece(m), MoveCap(m), MoveFlags(m);
    var us, them := s.stm, Other(s.stm);
    var isEp, isCastle, isPromo := HasFlag(flags, MF_EP), HasFlag(flags, MF_CASTLE), HasFlag(flags, MF_PROMO);
    && MakeDefined(s, m)
    && from != to
    && s.board[from] == Code(us, p)
    && (isPromo ==> p == PAWN && !isEp && !isCastle)
    && (isEp ==> !isCastle)
    && (if isEp then
          var v := EpVictim(us, to);
          s.board[to] == EMPTY_CODE && s.board[v] == Code(them, PAWN) && v != from
        else if cap != NO_PIECE then s.board[to] == Code(them, cap)
        else s.board[to] == EMPTY_CODE)
    && (isCastle ==>
          var rf, rt := RookFrom(us, to), RookTo(us, to);
          && p == KING
          && rf != from && rf != to && rt != from && rt != to
          && s.board[rf] == Code(us, ROOK) && s.board[rt] == EMPTY_CODE)
    && (p == KING ==> s.kingSq[us] == from)
  }

  /** The mailbox `make` leaves: the placed piece on the target, the origin and an en-passant
   *  victim's square empty, a castling rook moved to its destination, every other square as
   *  before. */
  predicate MadeBoard(b: seq<BoardCode>, s: PosState, m: Move)
    requires Shaped(s) && MakeDefined(s, m) && |b| == 64
  {
    var from, to, flags, us := MoveFrom(m), MoveTo(m), MoveFlags(m), s.stm;
    var isEp, isCastle := HasFlag(flags, MF_EP), HasFlag(flags, MF_CASTLE);
    var v, rf, rt := EpVictim(us, to), RookFrom(us, to), RookTo(us, to);
    && b[to] == Code(us, Placed(m))
    && b[from] == EMPTY_CODE
    && (isEp ==> b[v] == EMPTY_CODE)
    && (isCastle ==> b[rt] == Code(us, ROOK) && b[rf] == EMPTY_CODE)
    && (forall x :: 0 <= x < 64 && x != to && x != from && (isEp ==> x != v) && (isCastle ==> x != rf && x != rt)
          ==> b[x] == s.board[x])
  }

  /** The entry a fitting move captures: an enemy pawn for en passant, the enemy piece the move
   *  names for an ordinary capture, nothing otherwise. */
  function CaptureCode(s: PosState, m: Move): BoardCode
    requires MakeDefined(s, m)
  {
    if HasFlag(MoveFlags(m), MF_EP) then Code(Other(s.stm), PAWN)
    else if MoveCap(m) != NO_PIECE then Code(Other(s.stm), MoveCap(m))
    else EMPTY_CODE
  }

  /** Where `make` leaves the pieces in the mailbox, and what it records as captured. */
  lemma MakeMailbox(s: PosState, m: Move)
    requires Shaped(s) && Fits(s, m)
    ensures MadeBoard(MakeBoard(s, m), s, m)
    ensures MakeCaptured(s, m) == CaptureCode(s, m)
  {
  }

  /** `make` keeps the mailbox and the piece boards in agreement. */
  lemma MakeAgree(s: PosState, m: Move)
    requires Shaped(s) && Agree(s.bb, s.board) && Fits(s, m)
    ensures Agree(MakeBitboards(s, m), MakeBoard(s, m))
  {
    var from, to, flags, us, them := MoveFrom(m), MoveTo(m), MoveFlags(m), s.stm, Other(s.stm);
    var isEp, isCastle := HasFlag(flags, MF_EP), HasFlag(flags, MF_CASTLE);
    var bb1, b1 := s.bb, s.board;
    if NormalCapture(m) {
      FlipAgree(s.bb, s.board, Code(them, MoveCap(m)), to, EMPTY_CODE);
      bb1, b1 := Flip(s.bb, Code(them, MoveCap(m)), to), s.board[to := EMPTY_CODE];
    }
    FlipAgree(bb1, b1, Code(us, MovePiece(m)), from, EMPTY_CODE);
    var bb2, b2 := Flip(bb1, Code(us, MovePiece(m)), from), b1[from := EMPTY_CODE];
    var bb3, b3 := bb2, b2;
    if isEp {
      FlipAgree(bb2, b2, Code(them, PAWN), EpVictim(us, to), EMPTY_CODE);
      bb3, b3 := Flip(bb2, Code(them, PAWN), EpVictim(us, to)), b2[EpVictim(us, to) := EMPTY_CODE];
    }
    var bb4, b4 := bb3, b3;
    if isCastle {
      var rf, rt := RookFrom(us, to), RookTo(us, to);
      FlipAgree(bb3, b3, Code(us, ROOK), rf, EMPTY_CODE);
      FlipAgree(Flip(bb3, Code(us, ROOK), rf), b3[rf := EMPTY_CODE], Code(us, ROOK), rt, Code(us, ROOK));
      bb4, b4 := Flip(Flip(bb3, Code(us, ROOK), rf), Code(us, ROOK), rt), b3[rf := EMPTY_CODE][rt := Code(us, ROOK)];
    }
    FlipAgree(bb4, b4, Code(us, Placed(m)), to, Code(us, Placed(m)));
  }

  /** Rebuilding the occupancy of a position whose boards agree gives a valid position. */
  lemma RebuildOccValid(t: PosState)
    requires Shaped(t) && Agree(t.bb, t.board)
    ensures Valid(RebuildOcc(t))
  {
  }

  /** `make` keeps the mailbox, the piece boards and the occupancy in agreement, whatever
   *  rights it writes. */
  lemma MakeValid(s: PosState, m: Move, castling: Byte)
    requires Valid(s) && Fits(s, m)
    ensures Valid(MakeWith(s, m, castling).0)
  {
    MakeAgree(s, m);
  }

  /** What `unmake` needs to know about the position `make` produced. */
  predicate MadeFrom(t: PosState, u: Undo, s: PosState, m: Move)
    requires Shaped(s) && MakeDefined(s, m)
  {
    && Shaped(t) && MadeBoard(t.board, s, m)
    && t.stm == Other(s.stm) && u.capturedCode == CaptureCode(s, m)
  }

  /** `unmake` brings the mailbox back square for square. */
  lemma UnmakeBoardRestores(s: PosState, m: Move, t: PosState, u: Undo)
    requires Shaped(s) && Fits(s, m) && MadeFrom(t, u, s, m)
    ensures UnmakeDefined(t, m, u) && UnmakeBoard(t, m, u) == s.board
  {
    var r := UnmakeBoard(t, m, u);
    forall x | 0 <= x < 64
      ensures r[x] == s.board[x]
    {
    }
  }

  /** The mailbox and piece boards `unmake` produces agree. */
  lemma UnmakeAgree(s: PosState, m: Move, t: PosState, u: Undo)
    requires Shaped(s) && Fits(s, m) && MadeFrom(t, u, s, m) && Agree(t.bb, t.board)
    ensures UnmakeDefined(t, m, u) && Agree(UnmakeBitboards(t, m, u), UnmakeBoard(t, m, u))
  {
    var from, to, flags, us, them := MoveFrom(m), MoveTo(m), MoveFlags(m), s.stm, Other(s.stm);
    var isEp, isCastle := HasFlag(flags, MF_EP), HasFlag(flags, MF_CASTLE);
    FlipAgree(t.bb, t.board, Code(us, Placed(m)), to, EMPTY_CODE);
    var bb0, b0 := Flip(t.bb, Code(us, Placed(m)), to), t.board[to := EMPTY_CODE];
    FlipAgree(bb0, b0, Code(us, Mover(m)), from, Code(us, Mover(m)));
    var bb1, b1 := Flip(bb0, Code(us, Mover(m)), from), b0[from := Code(us, Mover(m))];
    var bb2, b2 := bb1, b1;
    if isCastle {
      var rf, rt := RookFrom(us, to), RookTo(us, to);
      FlipAgree(bb1, b1, Code(us, ROOK), rt, EMPTY_CODE);
      FlipAgree(Flip(bb1, Code(us, ROOK), rt), b1[rt := EMPTY_CODE], Code(us, ROOK), rf, Code(us, ROOK));
      bb2, b2 := Flip(Flip(bb1, Code(us, ROOK), rt), Code(us, ROOK), rf), b1[rt := EMPTY_CODE][rf := Code(us, ROOK)];
    }
    var cc := u.capturedCode;
    if cc != EMPTY_CODE {
      if isEp {
        FlipAgree(bb2, b2, Code(them, PAWN), EpVictim(us, to), cc);
      } else {
        FlipAgree(bb2, b2, Code(them, CodePiece(cc)), to, cc);
      }
    }
  }

  /** `unmake` restores every field of a valid position from what `make` left and saved. */
  lemma UnmakeRestores(s: PosState, m: Move, t: PosState, u: Undo)
    requires Valid(s) && Fits(s, m) && MadeFrom(t, u, s, m) && Agree(t.bb, t.board)
    requires u.castling == s.castling && u.epSq == s.epSq
    requires t.kingSq == if MovePiece(m) == KING then s.kingSq[s.stm := MoveTo(m)] else s.kingSq
    ensures UnmakeDefined(t, m, u) && Unmake(t, m, u) == s
  {
    UnmakeBoardRestores(s, m, t, u);
    UnmakeAgree(s, m, t, u);
    var r := Unmake(t, m, u);
    AgreeDetermines(r.bb, s.bb, s.board);
    assert r.kingSq == s.kingSq;
  }

  /** `unmake` undoes `make`, as written or corrected: the position comes back field for
   *  field whatever rights `make` wrote. */
  lemma MakeUnmake(s: PosState, m: Move, castling: Byte)
    requires Valid(s) && Fits(s, m)
    ensures UnmakeDefined(MakeWith(s, m, castling).0, m, MakeWith(s, m, castling).1)
    ensures Unmake(MakeWith(s, m, castling).0, m, MakeWith(s, m, castling).1) == s
  {
    var (t, u) := MakeWith(s, m, castling);
    MakeAgree(s, m);
    MakeMailbox(s, m);
    UnmakeRestores(s, m, t, u);
  }

  // ---------------------------------------------------------------- castling rights

  /** Every castling right still held is backed by its side's rook on its corner. */
  predicate RightsBacked(castling: Byte, board: seq<BoardCode>)
    requires |board| == 64
  {
    forall bit :: 0 <= bit < 4 && Has(castling, bit) ==> board[CornerOf(bit)] == Code(RightColor(bit), ROOK)
  }

  /** With the corrected rights update, `make` keeps every remaining right backed by its rook. */
  lemma MakeKeepsRightsBacked(s: PosState, m: Move)
    requires Shaped(s) && Fits(s, m) && RightsBacked(s.castling, s.board)
    ensures RightsBacked(MakeCorrected(s, m).0.castling, MakeCorrected(s, m).0.board)
  {
    var t := MakeCorrected(s, m).0;
    var from, to, p, us := MoveFrom(m), MoveTo(m), MovePiece(m), s.stm;
    MakeMailbox(s, m);
    assert t.board == MakeBoard(s, m);
    forall bit | 0 <= bit < 4 && Has(t.castling, bit)
      ensures t.board[CornerOf(bit)] == Code(RightColor(bit), ROOK)
    {
      RightsHas(s.castling, us, p, from, if NormalCapture(m) then to else NO_SQ, bit);
      CodeInjective(us, p, RightColor(bit), ROOK);
    }
  }

  /** The rights update as written leaves a right standing when the rook it belongs to is
   *  captured on its corner, so the position after the capture holds a right with no rook
   *  behind it. */
  lemma RightsAsWrittenLosesRook(s: PosState, m: Move, bit: nat)
    requires Shaped(s) && Fits(s, m) && bit < 4
    requires Has(s.castling, bit) && s.stm != RightColor(bit)
    requires NormalCapture(m) && MoveTo(m) == CornerOf(bit) && MovePiece(m) != KING && MovePiece(m) != ROOK
    ensures Has(Make(s, m).0.castling, bit)
    ensures Make(s, m).0.board[CornerOf(bit)] != Code(RightColor(bit), ROOK)
    ensures !RightsBacked(Make(s, m).0.castling, Make(s, m).0.board)
  {
    RightsAsWrittenHas(s.castling, s.stm, MovePiece(m), MoveFrom(m), bit);
    MakeMailbox(s, m);
    CodeInjective(s.stm, Placed(m), RightColor(bit), ROOK);
  }

  /** A castle made with no rook on its corner is not undone: `make` toggles a rook into
   *  the corner's piece board and moves no mailbox rook, and `unmake` writes a rook into
   *  the corner's mailbox entry, so the mailbox comes back with a rook that was never
   *  there. */
  lemma UnmakeConjuresRook(s: PosState, m: Move)
    requires Valid(s) && MakeDefined(s, m) && HasFlag(MoveFlags(m), MF_CASTLE) && !HasFlag(MoveFlags(m), MF_EP)
    requires MovePiece(m) == KING && !HasFlag(MoveFlags(m), MF_PROMO) && MoveCap(m) == NO_PIECE
    requires var rf := RookFrom(s.stm, MoveTo(m)); rf != MoveFrom(m) && rf != MoveTo(m) && s.board[rf] == EMPTY_CODE
    ensures var (t, u) := Make(s, m);
      UnmakeDefined(t, m, u) && Unmake(t, m, u).board[RookFrom(s.stm, MoveTo(m))] == Code(s.stm, ROOK)
    ensures var (t, u) := Make(s, m);
      Unmake(t, m, u) != s
  {
    var (t, u) := Make(s, m);
    var rf := RookFrom(s.stm, MoveTo(m));
    var moved := Moved(s, m, WrittenRights(s, m));
    assert t == RebuildOcc(moved) && u.capturedCode == MakeCaptured(s, m) == EMPTY_CODE;
    assert t.board == moved.board && t.stm == Other(s.stm);
    UnmakeRestoresCorner(t, m, u, s.stm);
    assert s.board[rf] != Code(s.stm, ROOK);
  }

  /** Undoing a castle that captured nothing writes the mover's rook on its corner. */
  lemma UnmakeRestoresCorner(t: PosState, m: Move, u: Undo, us: Color)
    requires Shaped(t) && UnmakeDefined(t, m, u) && HasFlag(MoveFlags(m), MF_CASTLE)
    requires u.capturedCode == EMPTY_CODE && us == Other(t.stm)
    ensures Unmake(t, m, u).board[RookFrom(us, MoveTo(m))] == Code(us, ROOK)
  {
    var r := Unmoved(t, m, u);
    assert r.board == UnmakeBoard(t, m, u);
    assert Unmake(t, m, u).board == r.board;
  }
}
