/** The FEN reader `load_fen` (fen.cpp): Forsyth–Edwards Notation as in section 16.1 of the
 *  PGN Standard, read with this engine's own leniencies. `Parse` is what a call does to a
 *  string, stated as a value; `LoadFen` is the cursor-driven procedure, proved to agree. */
module Fen {
  import opened Types
  import opened Words
  import opened Bitboards
  import opened PositionSpec
  import opened Wrappers
  import opened Notation
  import opened Position

  /** The largest `int`: a longer run of clock digits overflows `hm*10 + d`. */
  const INT_MAX: int := 0x7FFF_FFFF

  /** The clock values a fresh `Position` holds before a FEN sets them. These fields belong to
   *  the full `Position`, whose declaration is not part of this model. */
  const DEFAULT_HALFMOVE: int := 0
  const DEFAULT_FULLMOVE: int := 1

  /** `fen[i]` on a `std::string`: the character at `i`, and `'\0'` at `i == size()`. */
  function At(fen: string, i: nat): char
    requires i <= |fen|
  {
    if i < |fen| then fen[i] else '\0'
  }

  // ---------------------------------------------------------------- piece placement

  /** The piece a placement letter names after `toupper`: `P N B R Q K`, or `NO_PIECE`. */
  function LetterPiece(c: char): (p: Piece)
    ensures p == NO_PIECE <==> c !in "PNBRQKpnbrqk"
  {
    var uc := if 'a' <= c <= 'z' then (c as int - 32) as char else c;
    if uc == 'P' then PAWN
    else if uc == 'N' then KNIGHT
    else if uc == 'B' then BISHOP
    else if uc == 'R' then ROOK
    else if uc == 'Q' then QUEEN
    else if uc == 'K' then KING
    else NO_PIECE
  }

  /** Lower-case letters are Black's pieces. */
  function LetterColor(c: char): Color
  {
    if 'a' <= c <= 'z' then BLACK else WHITE
  }

  /** `set_piece` on a position value: the mailbox entry, the piece board and, for a king,
   *  the king square. */
  function Put(s: PosState, sq: Square, c: Color, p: RealPiece): (t: PosState)
    requires Shaped(s)
    ensures Shaped(t)
    ensures t.board == s.board[sq := Code(c, p)]
    ensures Squares(t.bb[Code(c, p)]) == Squares(s.bb[Code(c, p)]) + {sq}
    ensures forall k :: 0 <= k < 12 && k != Code(c, p) ==> t.bb[k] == s.bb[k]
    ensures t.kingSq[c] == (if p == KING then sq else s.kingSq[c])
    ensures t.kingSq[Other(c)] == s.kingSq[Other(c)]
    ensures t.(board := s.board, bb := s.bb, kingSq := s.kingSq) == s
  {
    var k := Code(c, p);
    s.(board := s.board[sq := k],
       bb := s.bb[k := Union(s.bb[k], SqBB(sq))],
       kingSq := if p == KING then s.kingSq[c := sq] else s.kingSq)
  }

  /** How the placement field ends: at the cursor `i` (a space or the end of the string),
   *  at an unknown letter, or at a piece placed off the board, where `set_piece` would write
   *  outside `board[64]`. */
  datatype Placement = Placing(i: nat, s: PosState) | BadLetter | OffBoard

  /** The placement loop from cursor `i` and square `sq`: `/` goes down a rank (`sq -= 16`
   *  after the rank's eight squares), a digit skips that many squares, a letter places a
   *  piece and moves on. */
  function Place(fen: string, i: nat, sq: int, s: PosState): (r: Placement)
    requires i <= |fen| && Shaped(s)
    ensures r.Placing? ==> i <= r.i <= |fen| && Shaped(r.s) && (r.i == |fen| || fen[r.i] == ' ')
    ensures r.Placing? ==> r.s.(board := s.board, bb := s.bb, kingSq := s.kingSq) == s
    decreases |fen| - i
  {
    if i == |fen| || fen[i] == ' ' then Placing(i, s)
    else if fen[i] == '/' then Place(fen, i + 1, sq - 16, s)
    else if '1' <= fen[i] <= '8' then Place(fen, i + 1, sq + (fen[i] as int - '0' as int), s)
    else if LetterPiece(fen[i]) == NO_PIECE then BadLetter
    else if !(0 <= sq < 64) then OffBoard
    else Place(fen, i + 1, sq + 1, Put(s, sq, LetterColor(fen[i]), LetterPiece(fen[i])))
  }

  // ---------------------------------------------------------------- the other fields

  /** The first space at or after `i`, or the end of the string. */
  function WordEnd(fen: string, i: nat): (j: nat)
    requires i <= |fen|
    ensures i <= j <= |fen| && (j == |fen| || fen[j] == ' ')
    ensures forall k :: i <= k < j ==> fen[k] != ' '
    decreases |fen| - i
  {
    if i == |fen| || fen[i] == ' ' then i else WordEnd(fen, i + 1)
  }

  /** The first non-space at or after `i`; a cursor already past the end stays where it is. */
  function SpacesEnd(fen: string, i: nat): (j: nat)
    ensures i <= j && (j < |fen| ==> fen[j] != ' ')
    ensures i < j ==> j <= |fen|
    ensures forall k :: i <= k < j ==> fen[k] == ' '
    decreases |fen| - i
  {
    if i < |fen| && fen[i] == ' ' then SpacesEnd(fen, i + 1) else i
  }

  /** The castling letters `K`, `Q`, `k`, `q` in bit order. */
  const CASTLE_LETTERS: string := "KQkq"

  /** The right a castling letter grants (`castling |= 1, 2, 4, 8`); other characters grant
   *  none. */
  function CastleBit(c: char): (b: nat)
    ensures b < 16
  {
    if c == 'K' then 1 else if c == 'Q' then 2 else if c == 'k' then 4 else if c == 'q' then 8 else 0
  }

  /** The castling loop: or in each letter's bit up to the next space or the end. */
  function CastleScan(fen: string, i: nat, acc: nat): (r: (nat, nat))
    requires i <= |fen| && acc < 16
    ensures r.0 < 16 && r.1 == WordEnd(fen, i)
    decreases |fen| - i
  {
    if i == |fen| || fen[i] == ' ' then (acc, i)
    else
      Pow2At4();
      OrBound(acc, CastleBit(fen[i]), 4);
      CastleScan(fen, i + 1, Or(acc, CastleBit(fen[i])))
  }

  lemma Pow2At4()
    ensures Pow2(4) == 16
  {
  }

  /** The clock loops: `v = v*10 + digit` while the cursor is on a decimal digit. */
  function DigitScan(fen: string, i: nat, acc: nat): (r: (nat, nat))
    ensures i <= r.1 && acc <= r.0
    decreases |fen| - i
  {
    if i < |fen| && '0' <= fen[i] <= '9' then DigitScan(fen, i + 1, acc * 10 + (fen[i] as int - '0' as int))
    else (acc, i)
  }

  function Min(a: int, b: int): int
  {
    if a <= b then a else b
  }

  // ---------------------------------------------------------------- the whole string

  /** What `load_fen` does with a string: reject it, reach undefined behaviour (a piece placed
   *  off the board, the en-passant field read past the terminator, a clock overflowing
   *  `int`), or accept it with the new position and the clock values it sets, if any. */
  datatype FenResult = Rejected | Undefined | Accepted(s: PosState, halfmove: Option<int>, fullmove: Option<int>)

  /** An accepted position as `load_fen` leaves it: occupancy rebuilt, a castling mask of
   *  four bits, an en-passant square on the board or `NO_SQ`, and clocks within their
   *  clamps. */
  predicate Sane(r: FenResult)
    requires r.Accepted?
  {
    && Shaped(r.s) && OccConsistent(r.s)
    && r.s.castling < 16
    && (r.s.epSq == NO_SQ || 0 <= r.s.epSq < 64)
    && (r.halfmove.Some? ==> 0 <= r.halfmove.value <= 1000)
    && (r.fullmove.Some? ==> 1 <= r.fullmove.value <= 10000)
  }

  /** `load_fen` on `fen`. */
  function Parse(fen: string): (r: FenResult)
    ensures r.Accepted? ==> Sane(r)
  {
    match Place(fen, 0, 56, EmptyState())
    case BadLetter => Rejected
    case OffBoard => Undefined
    case Placing(i, s) => if i == |fen| then Rejected else ParseSide(fen, i + 1, s)
  }

  /** The side to move: `w` or `b`, then the rest of that word is skipped. */
  function ParseSide(fen: string, i: nat, s: PosState): (r: FenResult)
    requires i <= |fen| && Shaped(s)
    ensures r.Accepted? ==> Sane(r) && At(fen, i) in "wb"
    ensures r.Accepted? ==> r.s.stm == (if At(fen, i) == 'w' then WHITE else BLACK)
    ensures r.Accepted? ==> r.s.bb == s.bb && r.s.board == s.board && r.s.kingSq == s.kingSq
  {
    var c := At(fen, i);
    if c != 'w' && c != 'b' then Rejected
    else
      var j := WordEnd(fen, i);
      if j == |fen| then Rejected
      else ParseCastling(fen, j + 1, s.(stm := if c == 'w' then WHITE else BLACK))
  }

  /** The castling field: `-`, or the letters up to the next space; a space must follow. */
  function ParseCastling(fen: string, i: nat, s: PosState): (r: FenResult)
    requires i <= |fen| && Shaped(s)
    ensures r.Accepted? ==> Sane(r)
    ensures r.Accepted? ==> r.s.bb == s.bb && r.s.board == s.board && r.s.kingSq == s.kingSq && r.s.stm == s.stm
    ensures r.Accepted? ==> r.s.castling == (if At(fen, i) == '-' then 0 else CastleScan(fen, i, 0).0)
  {
    var (castling, j) := if At(fen, i) == '-' then (0, i + 1) else CastleScan(fen, i, 0);
    if j >= |fen| || fen[j] != ' ' then Rejected
    else ParseEp(fen, j + 1, s.(castling := castling))
  }

  /** The en-passant field: `-` is `NO_SQ`; otherwise the next two characters, read with
   *  `sq_from_alg`. With nothing left to read, `fen[i++]` twice would pass the terminator. */
  function ParseEp(fen: string, i: nat, s: PosState): (r: FenResult)
    requires i <= |fen| && Shaped(s) && s.castling < 16
    ensures r.Accepted? ==> Sane(r)
    ensures r.Accepted? ==> r.s.bb == s.bb && r.s.board == s.board && r.s.kingSq == s.kingSq
    ensures r.Accepted? ==> r.s.stm == s.stm && r.s.castling == s.castling
  {
    if At(fen, i) == '-' then ParseClocks(fen, i + 1, s.(epSq := NO_SQ))
    else if i == |fen| then Undefined
    else ParseClocks(fen, i + 2, s.(epSq := SqFromAlg([fen[i], At(fen, i + 1)])))
  }

  /** The optional clocks: after any spaces, a halfmove clock is set (to 0 without digits)
   *  whenever characters remain, clamped to 1000; after more spaces, a fullmove number is
   *  set only when its digits read as more than 0, clamped to 10000. Occupancy is rebuilt
   *  last. */
  function ParseClocks(fen: string, i: nat, s: PosState): (r: FenResult)
    requires Shaped(s) && s.castling < 16 && (s.epSq == NO_SQ || 0 <= s.epSq < 64)
    ensures r.Accepted? ==> Sane(r)
    ensures r.Accepted? ==> r.s == RebuildOcc(s)
  {
    var i1 := SpacesEnd(fen, i);
    var (hm, i2) := if i1 < |fen| then DigitScan(fen, i1, 0) else (0, i1);
    var i3 := SpacesEnd(fen, i2);
    var (fm, i4) := if i3 < |fen| then DigitScan(fen, i3, 0) else (0, i3);
    if hm > INT_MAX || fm > INT_MAX then Undefined
    else
      RebuildOccIdempotent(s);
      Accepted(RebuildOcc(s),
               if i1 < |fen| then Some(Min(hm, 1000)) else None,
               if i3 < |fen| && fm > 0 then Some(Min(fm, 10000)) else None)
  }

  lemma RebuildOccIdempotent(s: PosState)
    requires Shaped(s)
    ensures OccConsistent(RebuildOcc(s))
  {
  }

  // ---------------------------------------------------------------- properties

  /** Bit `bit` of a letter's right is set exactly for the matching letter of `KQkq`. */
  lemma CastleBitHas(c: char, bit: nat)
    requires bit < 4
    ensures Has(CastleBit(c), bit) <==> c == CASTLE_LETTERS[bit]
  {
    if c !in CASTLE_LETTERS {
      HasZero(bit);
    } else {
      var k :| 0 <= k < 4 && CASTLE_LETTERS[k] == c;
      assert CastleBit(c) == Pow2(k);
      HasPow2(k, bit);
    }
  }

  /** The castling loop grants a right exactly when its letter appears before the next
   *  space; every other character is ignored. */
  lemma {:induction false} CastleScanHas(fen: string, i: nat, acc: nat, bit: nat)
    requires i <= |fen| && acc < 16 && bit < 4
    ensures Has(CastleScan(fen, i, acc).0, bit) <==>
      Has(acc, bit) || exists k :: i <= k < WordEnd(fen, i) && fen[k] == CASTLE_LETTERS[bit]
    decreases |fen| - i
  {
    if i == |fen| || fen[i] == ' ' {
    } else {
      Pow2At4();
      OrBound(acc, CastleBit(fen[i]), 4);
      var acc' := Or(acc, CastleBit(fen[i]));
      CastleScanHas(fen, i + 1, acc', bit);
      HasOr(acc, CastleBit(fen[i]), bit);
      CastleBitHas(fen[i], bit);
      if exists k :: i + 1 <= k < WordEnd(fen, i + 1) && fen[k] == CASTLE_LETTERS[bit] {
        var k :| i + 1 <= k < WordEnd(fen, i + 1) && fen[k] == CASTLE_LETTERS[bit];
        assert i <= k < WordEnd(fen, i);
      }
      if exists k :: i <= k < WordEnd(fen, i) && fen[k] == CASTLE_LETTERS[bit] {
        var k :| i <= k < WordEnd(fen, i) && fen[k] == CASTLE_LETTERS[bit];
        if k > i {
          assert i + 1 <= k < WordEnd(fen, i + 1);
        }
      }
    }
  }

  /** The castling field grants right `bit` of an accepted FEN exactly when its letter
   *  appears in the field; `-` grants none. */
  lemma CastlingFieldRights(fen: string, i: nat, s: PosState, bit: nat)
    requires i <= |fen| && Shaped(s) && bit < 4
    requires ParseCastling(fen, i, s).Accepted?
    ensures Has(ParseCastling(fen, i, s).s.castling, bit) <==>
      At(fen, i) != '-' && exists k :: i <= k < WordEnd(fen, i) && fen[k] == CASTLE_LETTERS[bit]
  {
    if At(fen, i) == '-' {
      HasZero(bit);
    } else {
      CastleScanHas(fen, i, 0, bit);
      HasZero(bit);
    }
  }

  /** A placement field made only of `/` and digits places nothing. */
  lemma {:induction false} PlaceEmptyRanks(fen: string, i: nat, sq: int, s: PosState)
    requires i <= |fen| && Shaped(s)
    requires forall k :: i <= k < WordEnd(fen, i) ==> fen[k] == '/' || '1' <= fen[k] <= '8'
    ensures Place(fen, i, sq, s) == Placing(WordEnd(fen, i), s)
    decreases |fen| - i
  {
    if i == |fen| || fen[i] == ' ' {
    } else if fen[i] == '/' {
      PlaceEmptyRanks(fen, i + 1, sq - 16, s);
    } else {
      PlaceEmptyRanks(fen, i + 1, sq + (fen[i] as int - '0' as int), s);
    }
  }

  // ---------------------------------------------------------------- the procedure

  /** `set_piece`. */
  method SetPiece(pos: Position, sq: Square, c: Color, p: RealPiece)
    requires pos.Ready()
    modifies pos.board, pos.bb, pos.kingSq
    ensures pos.Ready() && pos.State() == Put(old(pos.State()), sq, c, p)
  {
    var k := Code(c, p);
    pos.board[sq] := k;
    pos.bb[k] := Union(pos.bb[k], SqBB(sq));
    if p == KING {
      pos.kingSq[c] := sq;
    }
  }

  /** The placement loop of `load_fen`, from a8 (56) at the start of the string. */
  method PlacePieces(pos: Position, fen: string) returns (i: nat, ok: bool)
    requires pos.Ready() && Place(fen, 0, 56, pos.State()) != OffBoard
    modifies pos.board, pos.bb, pos.kingSq
    ensures pos.Ready()
    ensures Place(fen, 0, 56, old(pos.State())) == if ok then Placing(i, pos.State()) else BadLetter
  {
    i := 0;
    var sq := 56;
    while i < |fen| && fen[i] != ' '
      invariant i <= |fen| && pos.Ready()
      invariant Place(fen, i, sq, pos.State()) == Place(fen, 0, 56, old(pos.State()))
      decreases |fen| - i
    {
      var placed;
      sq, placed := PlaceChar(pos, fen, i, sq);
      i := i + 1;
      if !placed {
        return i, false;
      }
    }
    ok := true;
  }

  /** One pass of the placement loop, on the character at `i`. */
  method PlaceChar(pos: Position, fen: string, i: nat, sq0: int) returns (sq: int, ok: bool)
    requires pos.Ready() && i < |fen| && fen[i] != ' ' && Place(fen, i, sq0, pos.State()) != OffBoard
    modifies pos.board, pos.bb, pos.kingSq
    ensures pos.Ready()
    ensures ok ==> Place(fen, i, sq0, old(pos.State())) == Place(fen, i + 1, sq, pos.State())
    ensures !ok ==> Place(fen, i, sq0, old(pos.State())) == BadLetter
  {
    var c := fen[i];
    if c == '/' {
      return sq0 - 16, true;
    }
    if '1' <= c <= '8' {
      return sq0 + (c as int - '0' as int), true;
    }
    var col := if 'a' <= c <= 'z' then BLACK else WHITE;
    var pc := LetterPiece(c);
    if pc == NO_PIECE {
      return sq0, false;
    }
    SetPiece(pos, sq0, col, pc);
    sq, ok := sq0 + 1, true;
  }

  /** `while (i < size && fen[i] != ' ') i++;` */
  method SkipWord(fen: string, i0: nat) returns (i: nat)
    requires i0 <= |fen|
    ensures i == WordEnd(fen, i0)
  {
    i := i0;
    while i < |fen| && fen[i] != ' '
      invariant i0 <= i <= |fen| && WordEnd(fen, i) == WordEnd(fen, i0)
      decreases |fen| - i
    {
      i := i + 1;
    }
  }

  /** `while (i < size && fen[i] == ' ') i++;` */
  method SkipSpaces(fen: string, i0: nat) returns (i: nat)
    ensures i == SpacesEnd(fen, i0)
  {
    i := i0;
    while i < |fen| && fen[i] == ' '
      invariant i0 <= i && SpacesEnd(fen, i) == SpacesEnd(fen, i0)
      decreases |fen| - i
    {
      i := i + 1;
    }
  }

  /** The castling-letter loop, or-ing into `castling`. */
  method ScanCastling(fen: string, i0: nat, castling0: nat) returns (castling: nat, i: nat)
    requires i0 <= |fen| && castling0 < 16
    ensures (castling, i) == CastleScan(fen, i0, castling0)
  {
    castling, i := castling0, i0;
    Pow2At4();
    while i < |fen| && fen[i] != ' '
      invariant i0 <= i <= |fen| && castling < 16
      invariant CastleScan(fen, i, castling) == CastleScan(fen, i0, castling0)
      decreases |fen| - i
    {
      OrBound(castling, CastleBit(fen[i]), 4);
      castling := Or(castling, CastleBit(fen[i]));
      i := i + 1;
    }
  }

  /** A clock's digit loop. */
  method ScanDigits(fen: string, i0: nat) returns (v: nat, i: nat)
    ensures (v, i) == DigitScan(fen, i0, 0)
  {
    v, i := 0, i0;
    while i < |fen| && '0' <= fen[i] <= '9'
      invariant i0 <= i && DigitScan(fen, i, v) == DigitScan(fen, i0, 0)
      decreases |fen| - i
    {
      v := v * 10 + (fen[i] as int - '0' as int);
      i := i + 1;
    }
  }

  /** A clock field's value, or the default when the field leaves it unset. */
  function ClockOr(v: Option<int>, default: int): int
  {
    if v.Some? then v.value else default
  }

  /** `pos` holds the position and clocks of the accepted outcome `r`. */
  ghost predicate Holds(pos: Position, r: FenResult)
    reads pos, pos.bb, pos.occ, pos.board, pos.kingSq
    requires pos.Ready()
  {
    && r.Accepted? && pos.State() == r.s
    && pos.halfmoveClock == ClockOr(r.halfmove, DEFAULT_HALFMOVE)
    && pos.fullmoveNumber == ClockOr(r.fullmove, DEFAULT_FULLMOVE)
  }

  /** `load_fen(out, fen)`: on success `out` holds the parsed position and clocks, on failure
   *  it is untouched. The Zobrist key and game history the source also resets are not part
   *  of this model. */
  method LoadFen(out: Position, fen: string) returns (ok: bool)
    requires out.Ready() && Parse(fen) != Undefined
    modifies out, out.bb, out.occ, out.board, out.kingSq
    ensures out.Ready() && out.SameArrays()
    ensures ok <==> Parse(fen).Accepted?
    ensures ok ==> Holds(out, Parse(fen))
    ensures !ok ==> out.State() == old(out.State())
    ensures !ok ==> out.halfmoveClock == old(out.halfmoveClock) && out.fullmoveNumber == old(out.fullmoveNumber)
  {
    var p := new Position();
    ok := ReadFen(p, fen);
    if ok {
      out.Assign(p);
    }
  }

  /** The body of `load_fen` on its local `Position p`, up to the copy into `out`. */
  method ReadFen(p: Position, fen: string) returns (ok: bool)
    requires p.Ready() && p.State() == EmptyState() && Parse(fen) != Undefined
    requires p.halfmoveClock == DEFAULT_HALFMOVE && p.fullmoveNumber == DEFAULT_FULLMOVE
    modifies p, p.bb, p.occ, p.board, p.kingSq
    ensures p.Ready() && p.SameArrays()
    ensures ok <==> Parse(fen).Accepted?
    ensures ok ==> Holds(p, Parse(fen))
  {
    PlaceDefined(fen);
    var i, placed := PlacePieces(p, fen);
    if !placed || i >= |fen| {
      ParseAfterPlace(fen, if placed then Placing(i, p.State()) else BadLetter);
      return false;
    }
    ParseAfterPlace(fen, Placing(i, p.State()));
    ok := ReadFields(p, fen, i + 1);
  }

  /** A position `Parse` defines has a placement field that stays on the board. */
  lemma PlaceDefined(fen: string)
    requires Parse(fen) != Undefined
    ensures Place(fen, 0, 56, EmptyState()) != OffBoard
  {
  }

  /** `Parse` once the placement loop has ended. */
  lemma ParseAfterPlace(fen: string, place: Placement)
    requires place == Place(fen, 0, 56, EmptyState())
    ensures place.BadLetter? ==> Parse(fen) == Rejected
    ensures place.Placing? && place.i == |fen| ==> Parse(fen) == Rejected
    ensures place.Placing? && place.i < |fen| ==> Parse(fen) == ParseSide(fen, place.i + 1, place.s)
  {
  }

  /** Everything after the placement field: side, castling, en passant, clocks. */
  method ReadFields(p: Position, fen: string, i0: nat) returns (ok: bool)
    requires p.Ready() && i0 <= |fen| && ParseSide(fen, i0, p.State()) != Undefined
    requires p.halfmoveClock == DEFAULT_HALFMOVE && p.fullmoveNumber == DEFAULT_FULLMOVE
    modifies p, p.occ
    ensures p.Ready() && p.SameArrays()
    ensures ok <==> ParseSide(fen, i0, old(p.State())).Accepted?
    ensures ok ==> Holds(p, ParseSide(fen, i0, old(p.State())))
  {
    var i;
    i, ok := ReadSide(p, fen, i0);
    if !ok {
      return false;
    }
    ok := ReadTail(p, fen, i);
  }

  /** From the castling field to the end, then the occupancy rebuild. */
  method ReadTail(p: Position, fen: string, i0: nat) returns (ok: bool)
    requires p.Ready() && i0 <= |fen| && ParseCastling(fen, i0, p.State()) != Undefined
    requires p.halfmoveClock == DEFAULT_HALFMOVE && p.fullmoveNumber == DEFAULT_FULLMOVE
    modifies p, p.occ
    ensures p.Ready() && p.SameArrays()
    ensures ok <==> ParseCastling(fen, i0, old(p.State())).Accepted?
    ensures ok ==> Holds(p, ParseCastling(fen, i0, old(p.State())))
  {
    ghost var r := ParseCastling(fen, i0, p.State());
    var i;
    i, ok := ReadCastling(p, fen, i0);
    if !ok {
      return false;
    }
    i := ReadEp(p, fen, i);
    assert r == ParseClocks(fen, i, p.State());
    ReadClocks(p, fen, i);
    ghost var s := p.State();
    assert r.Accepted? && r.s == RebuildOcc(s);
    p.RebuildOccupancy();
  }

  /** The side-to-move field and the skip to the next space. */
  method ReadSide(p: Position, fen: string, i0: nat) returns (i: nat, ok: bool)
    requires p.Ready() && i0 <= |fen|
    modifies p
    ensures p.Ready() && p.SameArrays()
    ensures p.halfmoveClock == old(p.halfmoveClock) && p.fullmoveNumber == old(p.fullmoveNumber)
    ensures ok ==> i <= |fen| && ParseSide(fen, i0, old(p.State())) == ParseCastling(fen, i, p.State())
    ensures !ok ==> ParseSide(fen, i0, old(p.State())) == Rejected
  {
    ghost var s0 := p.State();
    var c := At(fen, i0);
    if c != 'w' && c != 'b' {
      SideField(fen, i0, p.State(), WordEnd(fen, i0));
      return i0, false;
    }
    var stm := if c == 'w' then WHITE else BLACK;
    i := SkipWord(fen, i0);
    SideField(fen, i0, s0, i);
    p.stm := stm;
    assert p.State() == s0.(stm := stm);
    if i == |fen| {
      return i, false;
    }
    i := i + 1;
    ok := true;
  }

  /** What `ParseSide` makes of the side field, the word from `i` to `j`. */
  lemma SideField(fen: string, i: nat, s: PosState, j: nat)
    requires i <= |fen| && Shaped(s) && j == WordEnd(fen, i)
    ensures At(fen, i) !in "wb" ==> ParseSide(fen, i, s) == Rejected
    ensures j == |fen| ==> ParseSide(fen, i, s) == Rejected
    ensures At(fen, i) in "wb" && j < |fen| ==> ParseSide(fen, i, s) == ParseCastling(fen, j + 1, s.(stm := if At(fen, i) == 'w' then WHITE else BLACK))
  {
  }

  /** The castling field and the space after it. */
  method ReadCastling(p: Position, fen: string, i0: nat) returns (i: nat, ok: bool)
    requires p.Ready() && i0 <= |fen|
    modifies p
    ensures p.Ready() && p.SameArrays()
    ensures p.halfmoveClock == old(p.halfmoveClock) && p.fullmoveNumber == old(p.fullmoveNumber)
    ensures ok ==> i <= |fen| && p.castling < 16 && ParseCastling(fen, i0, old(p.State())) == ParseEp(fen, i, p.State())
    ensures !ok ==> ParseCastling(fen, i0, old(p.State())) == Rejected
  {
    i := i0;
    p.castling := 0;
    if At(fen, i) == '-' {
      i := i + 1;
    } else {
      var cs;
      cs, i := ScanCastling(fen, i, p.castling);
      p.castling := cs;
    }
    if i >= |fen| || fen[i] != ' ' {
      return i, false;
    }
    i := i + 1;
    ok := true;
  }

  /** The en-passant field. */
  method ReadEp(p: Position, fen: string, i0: nat) returns (i: nat)
    requires p.Ready() && i0 <= |fen| && p.castling < 16 && ParseEp(fen, i0, p.State()) != Undefined
    modifies p
    ensures p.Ready() && p.SameArrays()
    ensures p.halfmoveClock == old(p.halfmoveClock) && p.fullmoveNumber == old(p.fullmoveNumber)
    ensures p.castling < 16 && (p.epSq == NO_SQ || 0 <= p.epSq < 64)
    ensures ParseEp(fen, i0, old(p.State())) == ParseClocks(fen, i, p.State())
  {
    i := i0;
    if At(fen, i) == '-' {
      p.epSq := NO_SQ;
      i := i + 1;
    } else {
      var eps := [At(fen, i), At(fen, i + 1)];
      p.epSq := SqFromAlg(eps);
      i := i + 2;
    }
  }

  /** The two optional clocks; the new values are written to `pos` as they are read. */
  method ReadClocks(pos: Position, fen: string, i0: nat)
    requires pos.Ready() && pos.castling < 16 && (pos.epSq == NO_SQ || 0 <= pos.epSq < 64)
    requires ParseClocks(fen, i0, pos.State()) != Undefined
    modifies pos
    ensures pos.Ready() && pos.SameArrays() && pos.State() == old(pos.State())
    ensures var r := ParseClocks(fen, i0, pos.State());
      && r.Accepted?
      && pos.halfmoveClock == (if r.halfmove.Some? then r.halfmove.value else old(pos.halfmoveClock))
      && pos.fullmoveNumber == (if r.fullmove.Some? then r.fullmove.value else old(pos.fullmoveNumber))
  {
    var i := SkipSpaces(fen, i0);
    if i < |fen| {
      var hm;
      hm, i := ScanDigits(fen, i);
      pos.halfmoveClock := Min(hm, 1000);
    }
    i := SkipSpaces(fen, i);
    if i < |fen| {
      var fm;
      fm, i := ScanDigits(fen, i);
      if fm > 0 {
        pos.fullmoveNumber := Min(fm, 10000);
      }
    }
  }
}
