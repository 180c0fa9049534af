/** Static exchange evaluation (see.cpp): the material outcome of a capture on one square when
 *  both sides keep recapturing with their least valuable attacker. The exchange runs on local
 *  copies of the piece boards and the occupancy, so the position is only read. */
module See {
  import opened Types
  import opened Bitboards
  import opened Moves
  import opened PositionSpec
  import opened Attacks
  import Magics
  import opened Position

  /** `see_val`: the exchange value of each piece, in centipawns. */
  function SeeVal(p: RealPiece): (v: int)
    ensures 100 <= v <= 20000
    ensures p == PAWN <==> v == 100
  {
    if p == PAWN then 100 else if p == KNIGHT then 320 else if p == BISHOP then 330
    else if p == ROOK then 500 else if p == QUEEN then 900 else 20000
  }

  /** The values rise in the order the attackers are tried: pawn, knight, bishop, rook, queen,
   *  king. */
  lemma SeeValRises(p: RealPiece, q: RealPiece)
    requires p < q
    ensures SeeVal(p) < SeeVal(q)
  {
  }

  function Max(a: int, b: int): int
  {
    if a >= b then a else b
  }

  function Min(a: int, b: int): int
  {
    if a <= b then a else b
  }

  // ---------------------------------------------------------------- attackers

  /** A piece of `c` and kind `p` stands on `f` and attacks `to` from there. */
  ghost predicate AttacksFrom(pieces: seq<Bitboard>, occ: Bitboard, to: Square, c: Color, p: RealPiece, f: Square)
    requires |pieces| == 12
  {
    f in Squares(pieces[Code(c, p)]) && to in PieceAttacks(c, p, f, occ)
  }

  /** The reverse lookup for one kind: the squares from which a piece of that kind attacks
   *  `to`, found from `to` itself; for a pawn, the squares a pawn of the other colour on `to`
   *  would attack. */
  ghost function Reverse(c: Color, p: RealPiece, to: Square, occ: Bitboard): set<Square>
  {
    if p == PAWN then PawnTargets(Other(c), to) else PieceAttacks(c, p, to, occ)
  }

  /** The pieces of `c` of the kinds from `p` on that the reverse lookups from `to` over `occ`
   *  find: `attackers_to` with `p` = 0. */
  ghost function Attackers(pieces: seq<Bitboard>, occ: Bitboard, to: Square, c: Color, p: nat): set<Square>
    requires |pieces| == 12 && p <= 6
    decreases 6 - p
  {
    if p == 6 then {} else (Squares(pieces[Code(c, p)]) * Reverse(c, p, to, occ)) + Attackers(pieces, occ, to, c, p + 1)
  }

  lemma KindAttacks(pieces: seq<Bitboard>, occ: Bitboard, to: Square, c: Color, p: RealPiece, f: Square)
    requires |pieces| == 12
    ensures AttacksFrom(pieces, occ, to, c, p, f) <==> f in Squares(pieces[Code(c, p)]) && f in Reverse(c, p, to, occ)
  {
    if p == PAWN {
      PawnSymmetric(c, f, to);
    } else if p == KNIGHT {
      KnightSymmetric(f, to);
    } else if p == KING {
      KingSymmetric(f, to);
    } else {
      SliderSymmetric(true, f, to, occ);
      SliderSymmetric(false, f, to, occ);
    }
  }

  lemma {:induction false} AttackersFrom(pieces: seq<Bitboard>, occ: Bitboard, to: Square, c: Color, p: nat, f: Square)
    requires |pieces| == 12 && p <= 6
    ensures f in Attackers(pieces, occ, to, c, p) <==> exists q: RealPiece :: p <= q && AttacksFrom(pieces, occ, to, c, q, f)
    decreases 6 - p
  {
    if p < 6 {
      AttackersFrom(pieces, occ, to, c, p + 1, f);
      KindAttacks(pieces, occ, to, c, p, f);
      if exists q: RealPiece :: p <= q && AttacksFrom(pieces, occ, to, c, q, f) {
        var q: RealPiece :| p <= q && AttacksFrom(pieces, occ, to, c, q, f);
        if q > p {
          assert p + 1 <= q;
        }
      }
    }
  }

  /** The reverse lookups find exactly the pieces of `c` that attack `to` from where they stand. */
  lemma AttackersAttack(pieces: seq<Bitboard>, occ: Bitboard, to: Square, c: Color, f: Square)
    requires |pieces| == 12
    ensures f in Attackers(pieces, occ, to, c, 0) <==> exists p: RealPiece :: AttacksFrom(pieces, occ, to, c, p, f)
  {
    AttackersFrom(pieces, occ, to, c, 0, f);
  }

  /** The same set grouped as `attackers_to` builds it: bishops with queens on the diagonals,
   *  rooks with queens on the lines. */
  lemma AttackersGrouped(pieces: seq<Bitboard>, occ: Bitboard, to: Square, c: Color)
    requires |pieces| == 12
    ensures Attackers(pieces, occ, to, c, 0) ==
      (PawnTargets(Other(c), to) * Squares(pieces[Code(c, PAWN)]))
      + (KnightTargets(to) * Squares(pieces[Code(c, KNIGHT)]))
      + (KingTargets(to) * Squares(pieces[Code(c, KING)]))
      + (SliderSet(false, to, occ) * (Squares(pieces[Code(c, BISHOP)]) + Squares(pieces[Code(c, QUEEN)])))
      + (SliderSet(true, to, occ) * (Squares(pieces[Code(c, ROOK)]) + Squares(pieces[Code(c, QUEEN)])))
  {
    var rook, bishop := SliderSet(true, to, occ), SliderSet(false, to, occ);
    var pt, nt, kt := PawnTargets(Other(c), to), KnightTargets(to), KingTargets(to);
    var P, N, B := Squares(pieces[Code(c, PAWN)]), Squares(pieces[Code(c, KNIGHT)]), Squares(pieces[Code(c, BISHOP)]);
    var R, Q, K := Squares(pieces[Code(c, ROOK)]), Squares(pieces[Code(c, QUEEN)]), Squares(pieces[Code(c, KING)]);
    assert Attackers(pieces, occ, to, c, 5) == K * kt + {};
    assert Attackers(pieces, occ, to, c, 4) == Q * (rook + bishop) + (K * kt + {});
    assert Attackers(pieces, occ, to, c, 2) == B * bishop + (R * rook + (Q * (rook + bishop) + (K * kt + {})));
    assert Attackers(pieces, occ, to, c, 0) == P * pt + (N * nt + (B * bishop + (R * rook + (Q * (rook + bishop) + (K * kt + {})))));
    Regroup(P, N, B, R, Q, K, pt, nt, bishop, rook, kt);
  }

  /** The set algebra behind the grouping: a queen attacks along both kinds of lines. */
  lemma Regroup<T>(P: set<T>, N: set<T>, B: set<T>, R: set<T>, Q: set<T>, K: set<T>,
                   pt: set<T>, nt: set<T>, bishop: set<T>, rook: set<T>, kt: set<T>)
    ensures P * pt + (N * nt + (B * bishop + (R * rook + (Q * (rook + bishop) + (K * kt + {}))))) ==
      (pt * P) + (nt * N) + (kt * K) + (bishop * (B + Q)) + (rook * (R + Q))
  {
  }

  /** `attackers_to(sq, occ, pieces, c)`. */
  method AttackersTo(to: Square, occ: Bitboard, pieces: seq<Bitboard>, c: Color,
                     atk: LeaperTables, mt: Magics.MagicTables) returns (att: Bitboard)
    requires |pieces| == 12 && atk.Valid() && atk.Filled() && mt.Valid() && mt.Sound()
    ensures Squares(att) == Attackers(pieces, occ, to, c, 0)
  {
    var pawnTbl := if c == WHITE then atk.pawn[BLACK, to] else atk.pawn[WHITE, to];
    att := Inter(pawnTbl, pieces[Code(c, PAWN)]);
    att := Union(att, Inter(atk.knight[to], pieces[Code(c, KNIGHT)]));
    att := Union(att, Inter(atk.king[to], pieces[Code(c, KING)]));
    var bishops := Union(pieces[Code(c, BISHOP)], pieces[Code(c, QUEEN)]);
    var rooks := Union(pieces[Code(c, ROOK)], pieces[Code(c, QUEEN)]);
    var ba := mt.BishopAttacks(to, occ);
    att := Union(att, Inter(ba, bishops));
    var ra := mt.RookAttacks(to, occ);
    att := Union(att, Inter(ra, rooks));
    AttackersGrouped(pieces, occ, to, c);
  }

  /** The squares of the boards of `c` of the kinds from `p` on. */
  ghost function Own(pieces: seq<Bitboard>, c: Color, p: nat): set<Square>
    requires |pieces| == 12 && p <= 6
    decreases 6 - p
  {
    if p == 6 then {} else Squares(pieces[Code(c, p)]) + Own(pieces, c, p + 1)
  }

  /** The union of the six boards of `c`, or-ed in piece order. */
  method OwnBoard(pieces: seq<Bitboard>, c: Color) returns (own: Bitboard)
    requires |pieces| == 12
    ensures Squares(own) == Own(pieces, c, 0)
  {
    own := Union(pieces[Code(c, PAWN)], pieces[Code(c, KNIGHT)]);
    own := Union(own, pieces[Code(c, BISHOP)]);
    own := Union(own, pieces[Code(c, ROOK)]);
    own := Union(own, pieces[Code(c, QUEEN)]);
    own := Union(own, pieces[Code(c, KING)]);
    assert Own(pieces, c, 6) == {};
    assert Own(pieces, c, 4) == Squares(pieces[Code(c, QUEEN)]) + Squares(pieces[Code(c, KING)]);
    assert Own(pieces, c, 2) == Squares(pieces[Code(c, BISHOP)]) + Own(pieces, c, 3);
  }

  // ---------------------------------------------------------------- least valuable attacker

  /** The first kind from `p` on, in the order pawn to king, that has a piece among `att`, or
   *  NO_PIECE when none has. */
  ghost function LeastKind(att: set<Square>, pieces: seq<Bitboard>, c: Color, p: nat): (r: Piece)
    requires |pieces| == 12 && p <= 6
    decreases 6 - p
  {
    if p == 6 then NO_PIECE
    else if att * Squares(pieces[Code(c, p)]) != {} then p
    else LeastKind(att, pieces, c, p + 1)
  }

  /** The kind found has a piece among `att`, and no kind tried before it has. */
  lemma {:induction false} LeastKindSpec(att: set<Square>, pieces: seq<Bitboard>, c: Color, p: nat)
    requires |pieces| == 12 && p <= 6
    ensures var r := LeastKind(att, pieces, c, p);
      && (r == NO_PIECE || (p <= r && att * Squares(pieces[Code(c, r)]) != {}))
      && forall q: RealPiece :: p <= q < r ==> att * Squares(pieces[Code(c, q)]) == {}
    decreases 6 - p
  {
    if p < 6 && att * Squares(pieces[Code(c, p)]) == {} {
      LeastKindSpec(att, pieces, c, p + 1);
    }
  }

  /** With no attacker at all, no kind is found. */
  lemma {:induction false} LeastKindNone(pieces: seq<Bitboard>, c: Color, p: nat)
    requires |pieces| == 12 && p <= 6
    ensures LeastKind({}, pieces, c, p) == NO_PIECE
    decreases 6 - p
  {
    if p < 6 {
      LeastKindNone(pieces, c, p + 1);
    }
  }

  /** The kind chosen is the cheapest one available: every kind worth less has no attacker. */
  lemma LeastKindCheapest(att: set<Square>, pieces: seq<Bitboard>, c: Color, q: RealPiece)
    requires |pieces| == 12
    requires LeastKind(att, pieces, c, 0) != NO_PIECE
    requires att * Squares(pieces[Code(c, q)]) != {}
    ensures SeeVal(LeastKind(att, pieces, c, 0)) <= SeeVal(q)
  {
    var r := LeastKind(att, pieces, c, 0);
    LeastKindSpec(att, pieces, c, 0);
    if r < q {
      SeeValRises(r, q);
    }
  }

  /** The lowest square of `S` at or above `i`, or -1 when there is none. */
  ghost function Least(S: set<Square>, i: nat): (r: int)
    requires i <= 64
    ensures r == -1 || i <= r < 64
    decreases 64 - i
  {
    if i == 64 then -1 else if i in S then i else Least(S, i + 1)
  }

  /** The square found is the least member of `S` from `i` on; -1 means there is none. */
  lemma {:induction false} LeastSpec(S: set<Square>, i: nat)
    requires i <= 64
    ensures Least(S, i) == -1 ==> forall s :: s in S ==> s < i
    ensures Least(S, i) != -1 ==> Least(S, i) in S && forall s :: s in S && i <= s ==> Least(S, i) <= s
    decreases 64 - i
  {
    if i < 64 && i !in S {
      LeastSpec(S, i + 1);
    }
  }

  /** `pop_lsb` finds the least square of a board. */
  lemma LowestLeast(x: Bitboard)
    requires x != 0
    ensures Least(Squares(x), 0) == Lowest(x)
  {
    LeastSpec(Squares(x), 0);
    assert Lowest(x) in Squares(x);
  }

  /** `pop_least_valuable_attacker`: the kinds from pawn to king are tried in turn; the first with
   *  a piece in `att` gives up its lowest square, which leaves both `att` and that kind's board.
   *  Returns -1 (and changes nothing) when no kind has one. */
  method PopLeastValuable(att: Bitboard, pieces: seq<Bitboard>, c: Color)
    returns (from: int, p: Piece, att2: Bitboard, pieces2: seq<Bitboard>)
    requires |pieces| == 12
    ensures p == LeastKind(Squares(att), pieces, c, 0)
    ensures p == NO_PIECE ==> from == -1 && att2 == att && pieces2 == pieces
    ensures p != NO_PIECE ==>
      && from == Least(Squares(att) * Squares(pieces[Code(c, p)]), 0) && 0 <= from < 64
      && att2 == Toggle(att, SqBB(from))
      && pieces2 == pieces[Code(c, p) := Toggle(pieces[Code(c, p)], SqBB(from))]
  {
    var q := 0;
    while q < 6
      invariant 0 <= q <= 6
      invariant LeastKind(Squares(att), pieces, c, 0) == LeastKind(Squares(att), pieces, c, q)
    {
      var bb := Inter(att, pieces[Code(c, q)]);
      NonZeroSquares(bb);
      if bb != 0 {
        var sq, _ := PopLsb(bb);
        LowestLeast(bb);
        var sqbb := SqBB(sq);
        return sq, q, Toggle(att, sqbb), pieces[Code(c, q) := Toggle(pieces[Code(c, q)], sqbb)];
      }
      q := q + 1;
    }
    return -1, NO_PIECE, att, pieces;
  }

  // ---------------------------------------------------------------- the exchange

  /** The kinds of the pieces that capture on `to` in turn, `side` first: each side takes with
   *  its least valuable attacker (the lowest square of that kind), which then leaves the
   *  occupancy, so that a slider behind it may join; the attacker sets are found afresh each
   *  turn. The exchange ends when the side to move has no attacker, or after 30 captures. */
  ghost function Exchange(pieces: seq<Bitboard>, occ: Bitboard, to: Square, side: Color, d: nat): (r: seq<RealPiece>)
    requires |pieces| == 12 && d <= 30
    ensures |r| <= 30 - d
    decreases 30 - d
  {
    if d == 30 then [] else
    var att := Attackers(pieces, occ, to, side, 0) * Own(pieces, side, 0);
    var p := LeastKind(att, pieces, side, 0);
    if p == NO_PIECE then []
    else
      var f := Least(att * Squares(pieces[Code(side, p)]), 0);
      if f == -1 then []
      else
        var k, q: RealPiece := Code(side, p), p;
        [q] + Exchange(pieces[k := Toggle(pieces[k], SqBB(f))], Toggle(occ, SqBB(f)), to, Other(side), d + 1)
  }

  /** The pieces captured in turn on `to`: the piece the move put there, then every capturer but
   *  the last. */
  function Victims(onTo: RealPiece, capturers: seq<RealPiece>): (v: seq<RealPiece>)
    ensures |v| == |capturers|
  {
    if |capturers| == 0 then [] else [onTo] + capturers[..|capturers| - 1]
  }

  /** The gain list: `gain[0]` is `first`, and each next entry is the value of the piece just
   *  taken minus the entry before it, the material the capturing side stands to win. */
  function Gains(first: int, victims: seq<RealPiece>): (g: seq<int>)
    ensures |g| == |victims| + 1 && g[0] == first
    decreases |victims|
  {
    if |victims| == 0 then [first]
    else
      var g := Gains(first, victims[..|victims| - 1]);
      g + [SeeVal(victims[|victims| - 1]) - g[|g| - 1]]
  }

  /** The value at entry `i` after the backward pass of see.cpp: each entry becomes the larger of
   *  itself and the negated entry after it. */
  function Backward(g: seq<int>, i: nat): int
    requires i < |g|
    decreases |g| - i
  {
    if i == |g| - 1 then g[i] else Max(g[i], -Backward(g, i + 1))
  }

  /** The corrected backward pass: each entry becomes the SMALLER of itself and the negated
   *  entry after it, since the side that made capture `i` only keeps `g[i]` if the opponent
   *  declines to recapture, and the opponent recaptures when that is better for them. */
  function Corrected(g: seq<int>, i: nat): int
    requires i < |g|
    decreases |g| - i
  {
    if i == |g| - 1 then g[i] else Min(g[i], -Corrected(g, i + 1))
  }

  // ---------------------------------------------------------------- the exchange as a game

  /** `x` seen from the side that made capture `k`: ours when `k` is even, the opponent's when
   *  it is odd. */
  function Signed(k: nat, x: int): int
  {
    if k % 2 == 0 then x else -x
  }

  /** The material balance, from the side that made the first capture, after captures 0..k:
   *  capture 0 wins `first`, capture k (k >= 1) takes `victims[k-1]`, for us when k is even and
   *  for the opponent when it is odd. */
  function Balance(first: int, victims: seq<RealPiece>, k: nat): int
    requires k <= |victims|
  {
    if k == 0 then first else Balance(first, victims, k - 1) + Signed(k, SeeVal(victims[k - 1]))
  }

  /** The value of the exchange once capture `k` has been made, with both sides free to stop
   *  capturing: after an even capture (ours) the opponent chooses between stopping and
   *  recapturing and takes the worse outcome for us; after an odd one we take the better. The
   *  capture sequence offers captures 1..|victims| and no more. */
  function GameValue(first: int, victims: seq<RealPiece>, k: nat): int
    requires k <= |victims|
    decreases |victims| - k
  {
    if k == |victims| then Balance(first, victims, k)
    else if k % 2 == 0 then Min(Balance(first, victims, k), GameValue(first, victims, k + 1))
    else Max(Balance(first, victims, k), GameValue(first, victims, k + 1))
  }

  /** Each gain entry is the balance seen from the side that made that capture. */
  lemma {:induction false} GainsAreBalances(first: int, victims: seq<RealPiece>, k: nat)
    requires k <= |victims|
    ensures Gains(first, victims)[k] == Signed(k, Balance(first, victims, k))
    decreases |victims|
  {
    if k < |victims| {
      var pre := victims[..|victims| - 1];
      GainsAreBalances(first, pre, k);
      BalancePrefix(first, victims, k);
    } else if k > 0 {
      var pre := victims[..|victims| - 1];
      GainsAreBalances(first, pre, k - 1);
      BalancePrefix(first, victims, k - 1);
    }
  }

  /** A balance depends only on the captures made so far. */
  lemma {:induction false} BalancePrefix(first: int, victims: seq<RealPiece>, k: nat)
    requires k < |victims|
    ensures Balance(first, victims[..|victims| - 1], k) == Balance(first, victims, k)
  {
    if k > 0 {
      BalancePrefix(first, victims, k - 1);
    }
  }

  /** The corrected pass computes the game value, seen from the side that made capture `i`. */
  lemma {:induction false} CorrectedFrom(first: int, victims: seq<RealPiece>, i: nat)
    requires i <= |victims|
    ensures Corrected(Gains(first, victims), i) == Signed(i, GameValue(first, victims, i))
    decreases |victims| - i
  {
    GainsAreBalances(first, victims, i);
    if i < |victims| {
      CorrectedFrom(first, victims, i + 1);
    }
  }

  /** The corrected SEE is the minimax value of the exchange for the side making the move. */
  lemma CorrectedIsGameValue(first: int, victims: seq<RealPiece>)
    ensures Corrected(Gains(first, victims), 0) == GameValue(first, victims, 0)
  {
    CorrectedFrom(first, victims, 0);
  }

  /** As written, the backward pass never reports less than the first gain: every capture, even
   *  of a defended pawn by a queen, looks at least as good as the piece it takes. */
  lemma BackwardNeverBelowFirst(g: seq<int>)
    requires |g| > 0
    ensures Backward(g, 0) >= g[0]
  {
  }

  /** A queen taking a pawn defended by a pawn: the gains are [100, 800]; as written the pass
   *  reports +100, while the exchange is worth -800 to the side taking (it loses the queen for
   *  a pawn) and the corrected pass says so. */
  lemma SeeOverstates()
    ensures Gains(100, [QUEEN]) == [100, 800]
    ensures Backward(Gains(100, [QUEEN]), 0) == 100
    ensures GameValue(100, [QUEEN], 0) == -800
    ensures Corrected(Gains(100, [QUEEN]), 0) == -800
  {
    CorrectedIsGameValue(100, [QUEEN]);
  }

  // ---------------------------------------------------------------- see

  /** The captured piece: a pawn for en passant, else the move's captured field. */
  function CapturedPiece(m: Move): Piece
  {
    if HasFlag(MoveFlags(m), MF_EP) then PAWN else if MoveCap(m) < 6 then MoveCap(m) else NO_PIECE
  }

  /** The square the captured piece stands on: behind `to` for en passant. */
  function CaptureSquare(us: Color, m: Move): int
  {
    if HasFlag(MoveFlags(m), MF_EP) then EpVictim(us, MoveTo(m)) else MoveTo(m)
  }

  /** The local boards and occupancy after the move: the mover lifted from `from`, the piece
   *  that lands (the promotion piece when promoting) added on `to`, and the captured piece
   *  removed. */
  function AfterMove(s: PosState, m: Move): (r: (seq<Bitboard>, Bitboard))
    requires Shaped(s) && MakeDefined(s, m)
    ensures |r.0| == 12
  {
    var from, to, us, moving, onTo := MoveFrom(m), MoveTo(m), s.stm, MovePiece(m), Placed(m);
    var p1 := s.bb[Code(us, moving) := Toggle(s.bb[Code(us, moving)], SqBB(from))];
    var p2 := p1[Code(us, onTo) := Union(p1[Code(us, onTo)], SqBB(to))];
    var occ := Union(Toggle(s.occAll, SqBB(from)), SqBB(to));
    var capP := CapturedPiece(m);
    if capP == NO_PIECE then (p2, occ)
    else
      var capSq := CaptureSquare(us, m);
      (p2[Code(Other(us), capP) := Toggle(p2[Code(Other(us), capP)], SqBB(capSq))], Toggle(occ, SqBB(capSq)))
  }

  /** Whether the move captures or promotes; SEE is 0 for any other move. */
  predicate Exchanges(m: Move)
  {
    CapturedPiece(m) != NO_PIECE || HasFlag(MoveFlags(m), MF_PROMO)
  }

  /** The value of the first capture: the captured piece, or a pawn for a quiet promotion. */
  function FirstGain(m: Move): int
  {
    SeeVal(if CapturedPiece(m) == NO_PIECE then PAWN else CapturedPiece(m))
  }

  /** The gain list of the exchange the move starts on `to`, the opponent recapturing first. */
  ghost function ExchangeGainList(s: PosState, m: Move): (g: seq<int>)
    requires Shaped(s) && MakeDefined(s, m)
    ensures 1 <= |g| <= 31 && g[0] == FirstGain(m)
  {
    var after := AfterMove(s, m);
    Gains(FirstGain(m), Victims(Placed(m), Exchange(after.0, after.1, MoveTo(m), Other(s.stm), 0)))
  }

  /** `see(pos, m)` on the position's fields, as written. */
  ghost function SeeSpec(s: PosState, m: Move): int
    requires Shaped(s) && MakeDefined(s, m)
  {
    if !Exchanges(m) then 0 else Backward(ExchangeGainList(s, m), 0)
  }

  /** `see(pos, m)` with the corrected backward pass. */
  ghost function SeeCorrectedSpec(s: PosState, m: Move): int
    requires Shaped(s) && MakeDefined(s, m)
  {
    if !Exchanges(m) then 0 else Corrected(ExchangeGainList(s, m), 0)
  }

  /** As written, SEE of a capture is never below the value of the piece it takes, so
   *  `see_ge(pos, m, 0)` holds for every capture. */
  lemma SeeAtLeastVictim(s: PosState, m: Move)
    requires Shaped(s) && MakeDefined(s, m) && Exchanges(m)
    ensures SeeSpec(s, m) >= FirstGain(m) > 0
  {
    BackwardNeverBelowFirst(ExchangeGainList(s, m));
  }

  /** With the correction, SEE is the minimax value of the capture sequence on `to`. */
  lemma SeeCorrectedIsGameValue(s: PosState, m: Move)
    requires Shaped(s) && MakeDefined(s, m) && Exchanges(m)
    ensures var after := AfterMove(s, m);
      SeeCorrectedSpec(s, m)
      == GameValue(FirstGain(m), Victims(Placed(m), Exchange(after.0, after.1, MoveTo(m), Other(s.stm), 0)), 0)
  {
    var after := AfterMove(s, m);
    CorrectedIsGameValue(FirstGain(m), Victims(Placed(m), Exchange(after.0, after.1, MoveTo(m), Other(s.stm), 0)));
  }

  /** The corrected value never exceeds the as-written one. */
  lemma {:induction false} CorrectedBelowBackward(g: seq<int>, i: nat)
    requires i < |g|
    ensures Corrected(g, i) <= Backward(g, i)
    decreases |g| - i
  {
    if i < |g| - 1 {
      CorrectedBelowBackward(g, i + 1);
    }
  }

  // ---------------------------------------------------------------- the methods

  /** The gain list `g` continued through the captures `rest`, `victim` being the piece that
   *  stands on the square when the next capture is made: the loop of see.cpp run from there. */
  ghost function Extend(g: seq<int>, victim: RealPiece, rest: seq<RealPiece>): (r: seq<int>)
    requires |g| > 0
    ensures |r| == |g| + |rest|
    decreases |rest|
  {
    if rest == [] then g else Extend(g + [SeeVal(victim) - g[|g| - 1]], rest[0], rest[1..])
  }

  lemma ExtendStep(g: seq<int>, victim: RealPiece, p: RealPiece, rest: seq<RealPiece>, g2: seq<int>)
    requires |g| > 0 && g2 == g + [SeeVal(victim) - g[|g| - 1]]
    ensures Extend(g, victim, [p] + rest) == Extend(g2, p, rest)
  {
    assert ([p] + rest)[1..] == rest;
  }

  /** The piece the next capture takes after the captures `done`. */
  function LastVictim(onTo: RealPiece, done: seq<RealPiece>): RealPiece
  {
    if done == [] then onTo else done[|done| - 1]
  }

  lemma VictimsSnoc(onTo: RealPiece, done: seq<RealPiece>, p: RealPiece)
    ensures Victims(onTo, done + [p]) == Victims(onTo, done) + [LastVictim(onTo, done)]
  {
    if |done| > 0 {
      assert (done + [p])[..|done|] == done;
      assert done == done[..|done| - 1] + [done[|done| - 1]];
    }
  }

  /** One more capture adds one entry to the gain list. */
  lemma GainsSnoc(first: int, onTo: RealPiece, done: seq<RealPiece>, p: RealPiece)
    ensures var g := Gains(first, Victims(onTo, done));
      Gains(first, Victims(onTo, done + [p])) == g + [SeeVal(LastVictim(onTo, done)) - g[|g| - 1]]
  {
    var vs := Victims(onTo, done);
    VictimsSnoc(onTo, done, p);
    assert (vs + [LastVictim(onTo, done)])[..|vs|] == vs;
  }

  lemma ExtendNone(g: seq<int>, victim: RealPiece)
    requires |g| > 0
    ensures Extend(g, victim, []) == g
  {
  }

  /** The gain list of a whole exchange is `[first]` continued through all its captures. */
  lemma ExtendAll(first: int, onTo: RealPiece, e: seq<RealPiece>)
    ensures Gains(first, Victims(onTo, e)) == Extend([first], onTo, e)
  {
    ExtendGains(first, onTo, [], e);
    assert Victims(onTo, []) == [] && [] + e == e;
  }

  /** Continuing the gain list of the captures `done` through the captures `rest` gives the gain
   *  list of all of them. */
  lemma MoveFirst(onTo: RealPiece, done: seq<RealPiece>, rest: seq<RealPiece>)
    requires rest != []
    ensures [rest[0]] + rest[1..] == rest && (done + [rest[0]]) + rest[1..] == done + rest
    ensures LastVictim(onTo, done + [rest[0]]) == rest[0]
  {
    assert (done + [rest[0]]) + rest[1..] == done + ([rest[0]] + rest[1..]);
  }

  lemma {:induction false} ExtendGains(first: int, onTo: RealPiece, done: seq<RealPiece>, rest: seq<RealPiece>)
    ensures Extend(Gains(first, Victims(onTo, done)), LastVictim(onTo, done), rest)
         == Gains(first, Victims(onTo, done + rest))
    decreases |rest|
  {
    if rest != [] {
      var victim := LastVictim(onTo, done);
      var g := Gains(first, Victims(onTo, done));
      GainsSnoc(first, onTo, done, rest[0]);
      MoveFirst(onTo, done, rest);
      ExtendStep(g, victim, rest[0], rest[1..], g + [SeeVal(victim) - g[|g| - 1]]);
      ExtendGains(first, onTo, done + [rest[0]], rest[1..]);
    } else {
      assert done + rest == done;
    }
  }

  /** One turn of the exchange: the side to move takes with the lowest square of its least
   *  valuable attacking kind, which leaves its board and the occupancy. */
  lemma ExchangeStep(pieces: seq<Bitboard>, occ: Bitboard, to: Square, side: Color, d: nat, att: set<Square>, p: Piece, f: int)
    requires |pieces| == 12 && d < 30
    requires att == Attackers(pieces, occ, to, side, 0) * Own(pieces, side, 0)
    requires p == LeastKind(att, pieces, side, 0) && p != NO_PIECE
    requires f == Least(att * Squares(pieces[Code(side, p)]), 0) && 0 <= f < 64
    ensures Exchange(pieces, occ, to, side, d) == [p] + (
      Exchange(pieces[Code(side, p) := Toggle(pieces[Code(side, p)], SqBB(f))], Toggle(occ, SqBB(f)), to, Other(side), d + 1))
  {
  }

  /** The exchange stops after 30 captures. */
  lemma ExchangeLimit(pieces: seq<Bitboard>, occ: Bitboard, to: Square, side: Color)
    requires |pieces| == 12
    ensures Exchange(pieces, occ, to, side, 30) == []
  {
  }

  /** The exchange stops when the side to move has no attacker left. */
  lemma ExchangeEnd(pieces: seq<Bitboard>, occ: Bitboard, to: Square, side: Color, d: nat)
    requires |pieces| == 12 && d < 30
    requires Attackers(pieces, occ, to, side, 0) * Own(pieces, side, 0) == {}
    ensures Exchange(pieces, occ, to, side, d) == []
  {
    LeastKindNone(pieces, side, 0);
  }

  /** Lines 102-110 and 116-117 of see.cpp, one turn of the exchange: the attackers of `side`
   *  (lines 93-94 and 125-126 find them over the current boards and occupancy) are narrowed to
   *  its pieces still on the board; if there are none the exchange ends (`NO_PIECE`), else the
   *  least valuable one leaves its board and the occupancy. */
  method CaptureTurn(pieces: seq<Bitboard>, occ: Bitboard, to: Square, side: Color, ghost d: nat,
                     atk: LeaperTables, mt: Magics.MagicTables)
    returns (aPiece: Piece, pieces2: seq<Bitboard>, occ2: Bitboard)
    requires |pieces| == 12 && d < 30 && atk.Valid() && atk.Filled() && mt.Valid() && mt.Sound()
    ensures |pieces2| == 12
    ensures aPiece == NO_PIECE ==> Exchange(pieces, occ, to, side, d) == []
    ensures aPiece != NO_PIECE ==>
      Exchange(pieces, occ, to, side, d) == [aPiece] + Exchange(pieces2, occ2, to, Other(side), d + 1)
  {
    var att := AttackersTo(to, occ, pieces, side, atk, mt);
    var own := OwnBoard(pieces, side);
    att := Inter(att, own);
    NonZeroSquares(att);
    if att == 0 {
      ExchangeEnd(pieces, occ, to, side, d);
      return NO_PIECE, pieces, occ;
    }
    var aFrom, p, rest, popped := PopLeastValuable(att, pieces, side);
    if aFrom < 0 {
      return NO_PIECE, pieces, occ;
    }
    ExchangeStep(pieces, occ, to, side, d, Squares(att), p, aFrom);
    aPiece, pieces2 := p, popped;
    occ2 := Toggle(occ, SqBB(aFrom));
  }

  /** Lines 88-130 of see.cpp: `gain[0]` is `first`; then, while the side to recapture has an
   *  attacker, it takes with its least valuable one, the next entry records the value of the
   *  piece taken minus the previous entry, the attacker leaves the occupancy and both attacker
   *  sets are found afresh; at most 30 captures. The entries are returned as a sequence. */
  method ExchangeGains(first: int, pieces0: seq<Bitboard>, occ0: Bitboard, to: Square, them: Color,
                       onTo: RealPiece, atk: LeaperTables, mt: Magics.MagicTables)
    returns (gs: seq<int>, d: nat)
    requires |pieces0| == 12 && atk.Valid() && atk.Filled() && mt.Valid() && mt.Sound()
    ensures d == |Exchange(pieces0, occ0, to, them, 0)| && |gs| == d + 1
    ensures gs == Gains(first, Victims(onTo, Exchange(pieces0, occ0, to, them, 0)))
  {
    ghost var e0 := Exchange(pieces0, occ0, to, them, 0);
    ghost var all := Gains(first, Victims(onTo, e0));
    ExtendAll(first, onTo, e0);
    d := 0;
    var pieces, occ := pieces0, occ0;
    var side := them;
    var victim: RealPiece := onTo;
    gs := [first];
    while d < 30
      invariant 0 <= d <= 30 && |pieces| == 12 && |gs| == d + 1
      invariant d + |Exchange(pieces, occ, to, side, d)| == |e0|
      invariant all == Extend(gs, victim, Exchange(pieces, occ, to, side, d))
      decreases 30 - d
    {
      var aPiece, pieces2, occ2 := CaptureTurn(pieces, occ, to, side, d, atk, mt);
      if aPiece == NO_PIECE {
        break;
      }
      ghost var before := gs;
      gs := gs + [SeeVal(victim) - gs[|gs| - 1]];
      ExtendStep(before, victim, aPiece, Exchange(pieces2, occ2, to, Other(side), d + 1), gs);
      d := d + 1;
      pieces, occ := pieces2, occ2;
      victim := aPiece;
      side := Other(side);
    }
    if d == 30 {
      ExchangeLimit(pieces, occ, to, side);
    }
    ExtendNone(gs, victim);
  }

  /** Line 133 of see.cpp: from the last entry back to the first, each entry becomes the larger
   *  of itself and the negated entry after it. */
  method BackwardPass(gain: array<int>, d: nat, ghost g: seq<int>)
    requires d < gain.Length && |g| == d + 1
    requires forall k :: 0 <= k <= d ==> gain[k] == g[k]
    modifies gain
    ensures gain[0] == Backward(g, 0)
  {
    var i: int := d - 1;
    while i >= 0
      invariant -1 <= i < d
      invariant gain[i + 1] == Backward(g, i + 1)
      invariant forall k :: 0 <= k <= i ==> gain[k] == g[k]
    {
      gain[i] := Max(gain[i], -gain[i + 1]);
      i := i - 1;
    }
  }

  /** Lines 57-83 of see.cpp: the move played on local copies of the piece boards and the
   *  occupancy; `onTo` is the piece that lands on the target. */
  method PlayOnCopies(pos: Position, m: Move, capP: int, capSq: int)
    returns (pieces: seq<Bitboard>, occ: Bitboard, onTo: RealPiece)
    requires pos.Ready() && MakeDefined(pos.State(), m)
    requires capP == CapturedPiece(m) && capSq == CaptureSquare(pos.stm, m)
    ensures (pieces, occ) == AfterMove(pos.State(), m) && onTo == Placed(m)
  {
    var from, to, us := MoveFrom(m), MoveTo(m), pos.stm;
    var them := Other(us);
    pieces := pos.bb[..];
    occ := pos.occAll;
    var moving := MovePiece(m);
    onTo := moving;
    if HasFlag(MoveFlags(m), MF_PROMO) {
      onTo := MovePromo(m);
    }
    var fromBB, toBB := SqBB(from), SqBB(to);
    pieces := pieces[Code(us, moving) := Toggle(pieces[Code(us, moving)], fromBB)];
    pieces := pieces[Code(us, onTo) := Union(pieces[Code(us, onTo)], toBB)];
    occ := Toggle(occ, fromBB);
    occ := Union(occ, toBB);
    if capP != NO_PIECE {
      var capBB := SqBB(capSq);
      pieces := pieces[Code(them, capP) := Toggle(pieces[Code(them, capP)], capBB)];
      occ := Toggle(occ, capBB);
    }
  }

  /** Lines 86-134 of see.cpp: the gains of the exchange go into the 32-entry buffer `gain`,
   *  are folded back in place, and `gain[0]` is the result. */
  method ExchangeValue(first: int, pieces: seq<Bitboard>, occ: Bitboard, to: Square, them: Color,
                       onTo: RealPiece, atk: LeaperTables, mt: Magics.MagicTables) returns (v: int)
    requires |pieces| == 12 && atk.Valid() && atk.Filled() && mt.Valid() && mt.Sound()
    ensures v == Backward(Gains(first, Victims(onTo, Exchange(pieces, occ, to, them, 0))), 0)
  {
    var gs, d := ExchangeGains(first, pieces, occ, to, them, onTo, atk, mt);
    var gain := new int[32](k requires 0 <= k < 32 => if k <= d then gs[k] else 0);
    BackwardPass(gain, d, gs);
    v := gain[0];
  }

  /** `see(pos, m)`: the move is played on local copies of the piece boards and the occupancy,
   *  the exchange on `to` is run and the gains are folded back. The position is only read. */
  method See(pos: Position, m: Move, atk: LeaperTables, mt: Magics.MagicTables) returns (v: int)
    requires pos.Ready() && atk.Valid() && atk.Filled() && mt.Valid() && mt.Sound()
    requires MakeDefined(pos.State(), m)
    ensures v == SeeSpec(pos.State(), m)
  {
    var flags, to, us := MoveFlags(m), MoveTo(m), pos.stm;
    var capP: int := MoveCap(m);
    var capSq := to;
    if HasFlag(flags, MF_EP) {
      capP := PAWN;
      capSq := EpVictim(us, to);
    }
    if capP == NO_PIECE && !HasFlag(flags, MF_PROMO) {
      return 0;
    }
    var pieces, occ, onTo := PlayOnCopies(pos, m, capP, capSq);
    v := ExchangeValue(SeeVal(if capP == NO_PIECE then PAWN else capP), pieces, occ, to, Other(us), onTo, atk, mt);
  }

  /** `see_ge`: whether SEE reaches the threshold. */
  method SeeGe(pos: Position, m: Move, threshold: int, atk: LeaperTables, mt: Magics.MagicTables) returns (b: bool)
    requires pos.Ready() && atk.Valid() && atk.Filled() && mt.Valid() && mt.Sound()
    requires MakeDefined(pos.State(), m)
    ensures b <==> SeeSpec(pos.State(), m) >= threshold
  {
    var v := See(pos, m, atk, mt);
    b := v >= threshold;
  }
}
