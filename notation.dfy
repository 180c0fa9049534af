/** Square and move notation shared by the text interfaces: the algebraic square names read
 *  by `sq_from_alg` (fen.cpp, search.cpp), the long-algebraic move strings written by
 *  `move_to_uci` (uci.cpp) and `move_to_uci_local` (search.cpp), and the promotion letter
 *  read back by `parse_uci_move` (search.cpp). */
module Notation {
  import opened Types
  import opened Bitboards
  import opened Moves

  /** `sq_from_alg`: exactly two characters, a file `a`..`h` then a rank `1`..`8`, name the
   *  square `r*8 + f`; anything else is `NO_SQ`. The copy in search.cpp tests the two
   *  differences as unsigned values, which accepts the same strings. */
  function SqFromAlg(s: string): (sq: int)
    ensures sq == NO_SQ || 0 <= sq < 64
    ensures sq != NO_SQ <==> |s| == 2 && 'a' <= s[0] <= 'h' && '1' <= s[1] <= '8'
  {
    if |s| != 2 then NO_SQ
    else if s[0] < 'a' || s[0] > 'h' || s[1] < '1' || s[1] > '8' then NO_SQ
    else (s[1] as int - '1' as int) * 8 + (s[0] as int - 'a' as int)
  }

  /** The lambda `sq_to` inside `move_to_uci`: the file letter `'a' + (sq & 7)` and the rank
   *  digit `'1' + (sq >> 3)`. */
  function SquareName(sq: Square): (s: string)
    ensures |s| == 2 && 'a' <= s[0] <= 'h' && '1' <= s[1] <= '8'
  {
    [('a' as int + FileOf(sq)) as char, ('1' as int + RankOf(sq)) as char]
  }

  /** Reading a square's name gives the square back. */
  lemma SqFromAlgName(sq: Square)
    ensures SqFromAlg(SquareName(sq)) == sq
  {
    FileRankOfSquare(sq);
  }

  /** Every string `sq_from_alg` accepts is the name of the square it reads. */
  lemma NameOfSqFromAlg(s: string)
    requires SqFromAlg(s) != NO_SQ
    ensures SquareName(SqFromAlg(s)) == s
  {
    var sq: Square := SqFromAlg(s);
    assert FileOf(sq) == s[0] as int - 'a' as int;
    assert RankOf(sq) == s[1] as int - '1' as int;
  }

  /** The promotion letter `move_to_uci` appends: `n`, `b`, `r` for knight, bishop and rook,
   *  and `q` for a queen and for any other value of the promotion field. */
  function PromoLetter(p: int): (c: char)
    ensures c in "nbrq"
  {
    if p == KNIGHT then 'n' else if p == BISHOP then 'b' else if p == ROOK then 'r' else 'q'
  }

  /** `move_to_uci` / `move_to_uci_local`: the from and to squares, then a promotion letter
   *  only when the move carries `MF_PROMO`. */
  function MoveToUci(m: Move): (u: string)
    ensures |u| == if HasFlag(MoveFlags(m), MF_PROMO) then 5 else 4
  {
    SquareName(MoveFrom(m)) + SquareName(MoveTo(m))
      + (if HasFlag(MoveFlags(m), MF_PROMO) then [PromoLetter(MovePromo(m))] else [])
  }

  /** The promotion `parse_uci_move` reads from the fifth character, case-insensitively;
   *  an unknown letter, like a missing one, requests no promotion. */
  function PromoFromLetter(c: char): (p: Piece)
    ensures p == NO_PIECE || KNIGHT <= p <= QUEEN
  {
    if c == 'q' || c == 'Q' then QUEEN
    else if c == 'r' || c == 'R' then ROOK
    else if c == 'b' || c == 'B' then BISHOP
    else if c == 'n' || c == 'N' then KNIGHT
    else NO_PIECE
  }

  /** The promotion a move string requests: none when it is shorter than five characters. */
  function RequestedPromo(u: string): (p: Piece)
    ensures |u| < 5 ==> p == NO_PIECE
  {
    if |u| >= 5 then PromoFromLetter(u[4]) else NO_PIECE
  }

  /** The promotion field a written move stands for once it is read back: none without
   *  `MF_PROMO`, the piece itself for a knight to queen, and a queen otherwise. */
  function WrittenPromo(m: Move): Piece
  {
    if !HasFlag(MoveFlags(m), MF_PROMO) then NO_PIECE
    else if KNIGHT <= MovePromo(m) <= QUEEN then MovePromo(m)
    else QUEEN
  }

  /** Reading back what `move_to_uci` writes gives the move's from and to squares and its
   *  promotion piece (a queen when the field held something else). */
  lemma MoveToUciReadsBack(m: Move)
    ensures var u := MoveToUci(m);
      && SqFromAlg(u[0..2]) == MoveFrom(m)
      && SqFromAlg(u[2..4]) == MoveTo(m)
      && RequestedPromo(u) == WrittenPromo(m)
  {
    var u := MoveToUci(m);
    assert u[0..2] == SquareName(MoveFrom(m));
    assert u[2..4] == SquareName(MoveTo(m));
    SqFromAlgName(MoveFrom(m));
    SqFromAlgName(MoveTo(m));
  }
}
