/** Colours, pieces, squares and score constants shared by the whole engine (types.h). */
module Types {
  /** Color enumeration: WHITE = 0, BLACK = 1. */
  type Color = c: int | 0 <= c <= 1
  const WHITE: Color := 0
  const BLACK: Color := 1

  /** Piece enumeration, NO_PIECE included. */
  type Piece = p: int | 0 <= p <= 6
  const PAWN: Piece := 0
  const KNIGHT: Piece := 1
  const BISHOP: Piece := 2
  const ROOK: Piece := 3
  const QUEEN: Piece := 4
  const KING: Piece := 5
  const NO_PIECE: Piece := 6

  /** A square index 0..63 (a1 = 0, h1 = 7, a8 = 56). */
  type Square = s: int | 0 <= s < 64

  const NO_SQ: int := -1
  const SCORE_INF: int := 30000
  const SCORE_MATE: int := 29000

  /** `operator!` on colours: the other side. */
  function Other(c: Color): (r: Color)
    ensures r != c
  {
    if c == WHITE then BLACK else WHITE
  }

  /** `!` swaps the two colours and is an involution. */
  lemma OtherSwaps(c: Color)
    ensures Other(WHITE) == BLACK && Other(BLACK) == WHITE
    ensures Other(Other(c)) == c
  {
  }

  /** The piece enumeration fits a 3-bit move field, NO_SQ is off the board, and a mate score
   *  lies strictly inside the search window. */
  lemma ConstantRanges(p: Piece)
    ensures 0 <= p < 8
    ensures !(0 <= NO_SQ < 64)
    ensures 0 < SCORE_MATE < SCORE_INF
  {
  }
}
