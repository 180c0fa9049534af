/** The legality filter the engine applies to generated moves outside perft: `parse_uci_move`
 *  (search.cpp), which turns a move string into the first generated move with that origin,
 *  target and promotion that does not leave the mover's king attacked, and `has_any_legal_move`
 *  (cli.cpp). Both make each candidate with the as-written `make`, test the king, and unmake;
 *  on a position whose moves do not all round-trip, the position they leave differs from the
 *  one they were given. */
module Legal {
  import opened Types
  import opened Moves
  import opened PositionSpec
  import opened Attacks
  import opened MoveGenSpec
  import opened PerftSpec
  import opened Notation
  import opened Position
  import Perft
  import Magics

  // ---------------------------------------------------------------------------------------------
  // The king test after the as-written make
  // ---------------------------------------------------------------------------------------------

  /** `m` can be made in `s`, and after the as-written `make` the king of the side that moved is
   *  on the board and not attacked by the side now to move. */
  ghost predicate LegalAfter(s: PosState, m: Move)
  {
    && Shaped(s) && MakeDefined(s, m)
    && var t := Make(s, m).0;
       0 <= t.kingSq[s.stm] < 64 && !AttackedOn(t.bb, t.occAll, t.kingSq[s.stm], t.stm)
  }

  /** The king test does not depend on which castling rights `make` writes, so it gives the same
   *  verdict after the as-written and after the corrected `make`. */
  lemma SameKingTest(s: PosState, m: Move)
    requires Shaped(s) && MakeDefined(s, m)
    ensures LegalAfter(s, m) <==> KingSafeAfter(s, m)
  {
    var a := Moved(s, m, WrittenRights(s, m));
    var b := Moved(s, m, CorrectedRights(s, m));
    assert a.bb == b.bb && a.kingSq == b.kingSq && a.stm == b.stm;
    assert RebuildOcc(a).occAll == RebuildOcc(b).occAll;
  }

  /** `m` can be made by the as-written `make`, which leaves the mover's king on the board, and
   *  `unmake` restores `s` exactly. */
  ghost predicate RoundTrips(s: PosState, m: Move)
  {
    && Shaped(s) && MakeDefined(s, m)
    && var (t, u) := Make(s, m);
       && Valid(t) && 0 <= t.kingSq[s.stm] < 64 && t.stm == Other(s.stm)
       && UnmakeDefined(t, m, u) && Unmake(t, m, u) == s
  }

  /** Every generated move of a coherent position is made and unmade exactly by the as-written
   *  `make` as well: the round trip holds whatever rights `make` writes. */
  lemma GenWrittenRoundTrip(s: PosState, m: Move)
    requires Coherent(s) && m in GenSpec(s)
    ensures Fits(s, m) && RoundTrips(s, m)
  {
    GenMakeUnmake(s, m);
    MakeValid(s, m, WrittenRights(s, m));
    MakeUnmake(s, m, WrittenRights(s, m));
  }

  /** After any `make` that stays inside its arrays, `unmake` of the same move with the record
   *  `make` returned stays inside them too, and `make` has passed the move. */
  lemma MadeUndoable(s: PosState, m: Move)
    requires Shaped(s) && MakeDefined(s, m)
    ensures Make(s, m).0.stm == Other(s.stm)
    ensures UnmakeDefined(Make(s, m).0, m, Make(s, m).1)
  {
  }

  /** The position the as-written `make` followed by `unmake` of `m` leaves. The side to move,
   *  the rights and the en-passant square come back from the undo record and a king that moved
   *  is recorded on the move's origin; for a move that round-trips it is `s` itself, but not
   *  in general. */
  function Back(s: PosState, m: Move): (r: PosState)
    requires Shaped(s) && MakeDefined(s, m)
    ensures Shaped(r) && r.stm == s.stm && r.castling == s.castling && r.epSq == s.epSq
    ensures r.kingSq == if MovePiece(m) == KING then s.kingSq[s.stm := MoveFrom(m)] else s.kingSq
    ensures RoundTrips(s, m) ==> r == s
  {
    MadeUndoable(s, m);
    var (t, u) := Make(s, m);
    Unmake(t, m, u)
  }

  /** The as-written `make` of a move that can be made passes the move, keeps the other side's
   *  king square, leaves the mover's king on the board, and leaves an en-passant square on the
   *  board or `NO_SQ`. */
  lemma MadeReady(s: PosState, m: Move)
    requires Shaped(s) && CanMake(s.stm, m) && 0 <= s.kingSq[s.stm] < 64
    ensures MakeDefined(s, m)
    ensures var t := Make(s, m).0;
      && Shaped(t) && t.stm == Other(s.stm) && t.kingSq[Other(s.stm)] == s.kingSq[Other(s.stm)]
      && 0 <= t.kingSq[s.stm] < 64 && (t.epSq == NO_SQ || 0 <= t.epSq < 64)
  {
  }

  /** `make` then `unmake` keep what `gen_pseudo` needs of a position. */
  lemma BackReady(s: PosState, m: Move)
    requires GenReady(s) && MakeDefined(s, m)
    ensures GenReady(Back(s, m))
  {
  }

  /** `gen_pseudo` on any position it can run on. */
  method Generate(pos: Position, atk: LeaperTables, mt: Magics.MagicTables) returns (ml: seq<Move>)
    requires Perft.Env(pos, atk, mt) && GenReady(pos.State())
    ensures ml == GenSpec(pos.State())
    ensures forall k :: 0 <= k < |ml| ==> CanMake(pos.State().stm, ml[k])
  {
    ml := pos.GenPseudo(atk, mt);
    GenCanMake(pos.State());
  }

  /** The make / king test / unmake step both loops share: the answer is the king test after
   *  the as-written `make`, and `pos` ends where `unmake` leaves it. */
  method TryMove(pos: Position, m: Move, atk: LeaperTables, mt: Magics.MagicTables, ghost s: PosState)
    returns (legal: bool)
    requires Perft.Env(pos, atk, mt) && pos.State() == s && GenReady(s) && CanMake(s.stm, m)
    modifies pos, pos.bb, pos.occ, pos.board, pos.kingSq
    ensures Perft.Env(pos, atk, mt) && pos.State() == Back(s, m)
    ensures pos.bb == old(pos.bb) && pos.occ == old(pos.occ) && pos.board == old(pos.board) && pos.kingSq == old(pos.kingSq)
    ensures pos.halfmoveClock == old(pos.halfmoveClock) && pos.fullmoveNumber == old(pos.fullmoveNumber)
    ensures legal == LegalAfter(s, m)
  {
    MadeReady(s, m);
    MadeUndoable(s, m);
    ghost var t := Make(s, m).0;
    var u := ApplyWritten(pos, m, atk, mt);
    legal := Perft.KingSafe(pos, atk, mt, t);
    Perft.RetractMove(pos, m, u, atk, mt);
  }

  /** The as-written `make` on the position; the tables stay as they were. */
  method ApplyWritten(pos: Position, m: Move, atk: LeaperTables, mt: Magics.MagicTables) returns (u: Undo)
    requires Perft.Env(pos, atk, mt) && Shaped(pos.State()) && MakeDefined(pos.State(), m)
    modifies pos, pos.bb, pos.occ, pos.board, pos.kingSq
    ensures Perft.Env(pos, atk, mt) && (pos.State(), u) == PositionSpec.Make(old(pos.State()), m)
    ensures pos.bb == old(pos.bb) && pos.occ == old(pos.occ) && pos.board == old(pos.board) && pos.kingSq == old(pos.kingSq)
    ensures pos.halfmoveClock == old(pos.halfmoveClock) && pos.fullmoveNumber == old(pos.fullmoveNumber)
  {
    u := pos.Make(m);
  }

  // ---------------------------------------------------------------------------------------------
  // parse_uci_move
  // ---------------------------------------------------------------------------------------------

  /** The filter of `parse_uci_move`'s loop: origin and target agree, and a requested promotion
   *  must be a promotion to that piece, while no request admits only non-promotions. */
  predicate Matches(m: Move, from: int, to: int, promo: Piece)
  {
    && MoveFrom(m) == from && MoveTo(m) == to
    && (if promo != NO_PIECE then HasFlag(MoveFlags(m), MF_PROMO) && MovePromo(m) == promo
        else !HasFlag(MoveFlags(m), MF_PROMO))
  }

  /** The first move of `ml` that matches and passes the king test, or 0. */
  ghost function FirstMatch(s: PosState, ml: seq<Move>, from: int, to: int, promo: Piece): Move
    decreases |ml|
  {
    if |ml| == 0 then 0
    else if Matches(ml[0], from, to, promo) && LegalAfter(s, ml[0]) then ml[0]
    else FirstMatch(s, ml[1..], from, to, promo)
  }

  /** `parse_uci_move(pos, u)` on the position `s`: 0 for a string shorter than four characters
   *  or with a square outside a1..h8, else the first generated move the filter and the king test
   *  accept, or 0 when there is none. */
  ghost function ParseSpec(s: PosState, u: string): Move
    requires GenReady(s)
  {
    if |u| < 4 then 0
    else
      var from, to := SqFromAlg(u[0..2]), SqFromAlg(u[2..4]);
      if from == NO_SQ || to == NO_SQ then 0
      else FirstMatch(s, GenSpec(s), from, to, RequestedPromo(u))
  }

  /** The loop of `parse_uci_move` over the candidates `ml`, from the position `s`: a
   *  candidate that matches is made, its king tested and unmade, and the first that passes is
   *  the answer. Each `make` / `unmake` leaves `Back` of the position, which is the one the
   *  next candidate is tried in. The pair is the answer and the position the loop leaves. */
  ghost function ParseRun(s: PosState, ml: seq<Move>, i: nat, from: int, to: int, promo: Piece): (r: (Move, PosState))
    requires i <= |ml| && GenReady(s) && forall k :: 0 <= k < |ml| ==> CanMake(s.stm, ml[k])
    ensures GenReady(r.1) && r.1.stm == s.stm && r.1.epSq == s.epSq && r.1.kingSq[Other(s.stm)] == s.kingSq[Other(s.stm)]
    ensures r.0 == 0 || (r.0 in ml[i..] && Matches(r.0, from, to, promo))
    decreases |ml| - i
  {
    if i == |ml| then (0, s)
    else if !Matches(ml[i], from, to, promo) then ParseRun(s, ml, i + 1, from, to, promo)
    else
      CanMakeDefined(s, ml[i]);
      var b := Back(s, ml[i]);
      if LegalAfter(s, ml[i]) then (ml[i], b)
      else ParseRun(b, ml, i + 1, from, to, promo)
  }

  /** `parse_uci_move(pos, u)` as written, on any position `gen_pseudo` can run on: the answer
   *  and the position it leaves. A string shorter than four characters or with a square
   *  outside a1..h8 gives 0 and leaves `s`. */
  ghost function ParseWritten(s: PosState, u: string): (r: (Move, PosState))
    requires GenReady(s)
    ensures GenReady(r.1) && r.1.stm == s.stm && r.1.epSq == s.epSq && r.1.kingSq[Other(s.stm)] == s.kingSq[Other(s.stm)]
  {
    if |u| < 4 then (0, s)
    else
      var from, to := SqFromAlg(u[0..2]), SqFromAlg(u[2..4]);
      if from == NO_SQ || to == NO_SQ then (0, s)
      else
        GenCanMake(s);
        ParseRun(s, GenSpec(s), 0, from, to, RequestedPromo(u))
  }

  /** A non-zero answer is a generated move with the requested origin, target and promotion,
   *  whatever the position. */
  lemma ParseWrittenSound(s: PosState, u: string)
    requires GenReady(s)
    ensures var m := ParseWritten(s, u).0;
      m != 0 ==> && |u| >= 4 && m in GenSpec(s)
                 && Matches(m, SqFromAlg(u[0..2]), SqFromAlg(u[2..4]), RequestedPromo(u))
  {
  }

  /** When every candidate round-trips, the loop leaves the position as it found it and answers
   *  the first candidate that matches and passes the king test. */
  lemma {:induction false} ParseRunRoundTrip(s: PosState, ml: seq<Move>, i: nat, from: int, to: int, promo: Piece)
    requires i <= |ml| && GenReady(s) && forall k :: 0 <= k < |ml| ==> CanMake(s.stm, ml[k]) && RoundTrips(s, ml[k])
    ensures ParseRun(s, ml, i, from, to, promo) == (FirstMatch(s, ml[i..], from, to, promo), s)
    decreases |ml| - i
  {
    if i < |ml| {
      assert RoundTrips(s, ml[i]);
      assert ml[i..][0] == ml[i] && ml[i..][1..] == ml[i + 1..];
      ParseRunRoundTrip(s, ml, i + 1, from, to, promo);
    }
  }

  /** On a coherent position `parse_uci_move` leaves the position unchanged and its answer is
   *  `ParseSpec`. */
  lemma ParseWrittenCoherent(s: PosState, u: string)
    requires Coherent(s)
    ensures ParseWritten(s, u) == (ParseSpec(s, u), s)
  {
    if |u| >= 4 && SqFromAlg(u[0..2]) != NO_SQ && SqFromAlg(u[2..4]) != NO_SQ {
      GenCanRoundTrip(s);
      ParseRunRoundTrip(s, GenSpec(s), 0, SqFromAlg(u[0..2]), SqFromAlg(u[2..4]), RequestedPromo(u));
      assert GenSpec(s)[0..] == GenSpec(s);
    }
  }

  /** `parse_uci_move`: the loop over the generated moves, each matching one made, tested and
   *  unmade with the as-written `make` and `unmake`. */
  method ParseUciMove(pos: Position, uci: string, atk: LeaperTables, mt: Magics.MagicTables) returns (m: Move)
    requires Perft.Env(pos, atk, mt) && GenReady(pos.State())
    modifies pos, pos.bb, pos.occ, pos.board, pos.kingSq
    ensures Perft.Env(pos, atk, mt)
    ensures pos.bb == old(pos.bb) && pos.occ == old(pos.occ) && pos.board == old(pos.board) && pos.kingSq == old(pos.kingSq)
    ensures pos.halfmoveClock == old(pos.halfmoveClock) && pos.fullmoveNumber == old(pos.fullmoveNumber)
    ensures (m, pos.State()) == ParseWritten(old(pos.State()), uci)
  {
    if |uci| < 4 {
      return 0;
    }
    var from := SqFromAlg(uci[0..2]);
    var to := SqFromAlg(uci[2..4]);
    if from == NO_SQ || to == NO_SQ {
      return 0;
    }
    var promo := RequestedPromo(uci);
    ghost var s := pos.State();
    var ml := Generate(pos, atk, mt);
    m := ParseScan(pos, ml, from, to, promo, atk, mt, s);
  }

  /** The loop of `parse_uci_move` over the moves `ml`. */
  method ParseScan(pos: Position, ml: seq<Move>, from: int, to: int, promo: Piece,
                   atk: LeaperTables, mt: Magics.MagicTables, ghost s: PosState) returns (m: Move)
    requires Perft.Env(pos, atk, mt) && pos.State() == s && GenReady(s)
    requires forall k :: 0 <= k < |ml| ==> CanMake(s.stm, ml[k])
    modifies pos, pos.bb, pos.occ, pos.board, pos.kingSq
    ensures Perft.Env(pos, atk, mt)
    ensures pos.bb == old(pos.bb) && pos.occ == old(pos.occ) && pos.board == old(pos.board) && pos.kingSq == old(pos.kingSq)
    ensures pos.halfmoveClock == old(pos.halfmoveClock) && pos.fullmoveNumber == old(pos.fullmoveNumber)
    ensures (m, pos.State()) == ParseRun(s, ml, 0, from, to, promo)
  {
    var i := 0;
    while i < |ml|
      invariant 0 <= i <= |ml|
      invariant Perft.Env(pos, atk, mt) && GenReady(pos.State()) && pos.State().stm == s.stm
      invariant pos.bb == old(pos.bb) && pos.occ == old(pos.occ) && pos.board == old(pos.board) && pos.kingSq == old(pos.kingSq)
      invariant pos.halfmoveClock == old(pos.halfmoveClock) && pos.fullmoveNumber == old(pos.fullmoveNumber)
      invariant ParseRun(pos.State(), ml, i, from, to, promo) == ParseRun(s, ml, 0, from, to, promo)
    {
      var mv := ml[i];
      if Matches(mv, from, to, promo) {
        var legal := ParseOne(pos, ml, i, from, to, promo, atk, mt, pos.State());
        if legal {
          return mv;
        }
      }
      i := i + 1;
    }
    return 0;
  }

  /** One matching turn of the loop of `parse_uci_move`: the king test on `ml[i]`. */
  method ParseOne(pos: Position, ml: seq<Move>, i: nat, from: int, to: int, promo: Piece,
                  atk: LeaperTables, mt: Magics.MagicTables, ghost t: PosState)
    returns (legal: bool)
    requires i < |ml| && Matches(ml[i], from, to, promo)
    requires Perft.Env(pos, atk, mt) && pos.State() == t && GenReady(t)
    requires forall k :: 0 <= k < |ml| ==> CanMake(t.stm, ml[k])
    modifies pos, pos.bb, pos.occ, pos.board, pos.kingSq
    ensures Perft.Env(pos, atk, mt) && GenReady(pos.State()) && pos.State().stm == t.stm
    ensures pos.bb == old(pos.bb) && pos.occ == old(pos.occ) && pos.board == old(pos.board) && pos.kingSq == old(pos.kingSq)
    ensures pos.halfmoveClock == old(pos.halfmoveClock) && pos.fullmoveNumber == old(pos.fullmoveNumber)
    ensures ParseRun(t, ml, i, from, to, promo)
            == if legal then (ml[i], pos.State()) else ParseRun(pos.State(), ml, i + 1, from, to, promo)
  {
    legal := TryMove(pos, ml[i], atk, mt, t);
    CanMakeDefined(t, ml[i]);
    BackReady(t, ml[i]);
  }

  lemma {:induction false} FirstMatchSound(s: PosState, ml: seq<Move>, from: int, to: int, promo: Piece)
    ensures var r := FirstMatch(s, ml, from, to, promo);
      r == 0 || (r in ml && Matches(r, from, to, promo) && LegalAfter(s, r))
    decreases |ml|
  {
    if |ml| > 0 && !(Matches(ml[0], from, to, promo) && LegalAfter(s, ml[0])) {
      FirstMatchSound(s, ml[1..], from, to, promo);
    }
  }

  lemma {:induction false} FirstMatchFinds(s: PosState, ml: seq<Move>, from: int, to: int, promo: Piece, k: int)
    requires 0 <= k < |ml| && Matches(ml[k], from, to, promo) && LegalAfter(s, ml[k])
    requires forall j :: 0 <= j < |ml| ==> ml[j] != 0
    ensures FirstMatch(s, ml, from, to, promo) != 0
    decreases |ml|
  {
    if k > 0 && !(Matches(ml[0], from, to, promo) && LegalAfter(s, ml[0])) {
      FirstMatchFinds(s, ml[1..], from, to, promo, k - 1);
    }
  }

  /** A non-zero answer is a generated move with the requested origin, target and promotion that
   *  does not leave the mover's king attacked. */
  lemma ParseSound(s: PosState, u: string)
    requires Coherent(s)
    ensures var r := ParseSpec(s, u);
      r != 0 ==> && |u| >= 4 && r in GenSpec(s) && LegalAfter(s, r)
                 && MoveFrom(r) == SqFromAlg(u[0..2]) && MoveTo(r) == SqFromAlg(u[2..4])
                 && Matches(r, MoveFrom(r), MoveTo(r), RequestedPromo(u))
  {
    if |u| >= 4 && SqFromAlg(u[0..2]) != NO_SQ && SqFromAlg(u[2..4]) != NO_SQ {
      FirstMatchSound(s, GenSpec(s), SqFromAlg(u[0..2]), SqFromAlg(u[2..4]), RequestedPromo(u));
    }
  }

  /** Generated moves are never 0: their origin and target differ. */
  lemma GenNonZero(s: PosState)
    requires Coherent(s)
    ensures forall j :: 0 <= j < |GenSpec(s)| ==> GenSpec(s)[j] != 0
  {
    GenFits(s);
    forall j | 0 <= j < |GenSpec(s)|
      ensures GenSpec(s)[j] != 0
    {
      assert PseudoLegal(s, GenSpec(s)[j]);
    }
  }

  /** The string `move_to_uci` writes for a legal generated move is parsed back to a legal move
   *  with the same origin, target and promotion. */
  lemma ParseReadsMoveToUci(s: PosState, m: Move)
    requires Coherent(s) && m in GenSpec(s) && LegalAfter(s, m)
    requires HasFlag(MoveFlags(m), MF_PROMO) ==> KNIGHT <= MovePromo(m) <= QUEEN
    ensures var r := ParseSpec(s, MoveToUci(m));
      && r != 0 && r in GenSpec(s) && LegalAfter(s, r)
      && MoveFrom(r) == MoveFrom(m) && MoveTo(r) == MoveTo(m)
      && HasFlag(MoveFlags(r), MF_PROMO) == HasFlag(MoveFlags(m), MF_PROMO)
      && (HasFlag(MoveFlags(m), MF_PROMO) ==> MovePromo(r) == MovePromo(m))
  {
    var u := MoveToUci(m);
    MoveToUciReadsBack(m);
    var k :| 0 <= k < |GenSpec(s)| && GenSpec(s)[k] == m;
    GenNonZero(s);
    FirstMatchFinds(s, GenSpec(s), MoveFrom(m), MoveTo(m), RequestedPromo(u), k);
    ParseSound(s, u);
  }

  // ---------------------------------------------------------------------------------------------
  // has_any_legal_move
  // ---------------------------------------------------------------------------------------------

  /** Some generated move of `s` passes the king test after the as-written `make`. */
  ghost predicate AnyLegal(s: PosState)
    requires GenReady(s)
  {
    exists m :: m in GenSpec(s) && LegalAfter(s, m)
  }

  /** Some move of `ml` passes the king test. */
  ghost predicate AnyIn(s: PosState, ml: seq<Move>)
    decreases |ml|
  {
    |ml| > 0 && (LegalAfter(s, ml[0]) || AnyIn(s, ml[1..]))
  }

  lemma {:induction false} AnyInMeans(s: PosState, ml: seq<Move>)
    ensures AnyIn(s, ml) <==> exists m :: m in ml && LegalAfter(s, m)
    decreases |ml|
  {
    if |ml| > 0 {
      AnyInMeans(s, ml[1..]);
      assert forall m :: m in ml <==> m == ml[0] || m in ml[1..];
    }
  }

  lemma AnyInGen(s: PosState)
    requires GenReady(s)
    ensures AnyIn(s, GenSpec(s)) == AnyLegal(s)
  {
    AnyInMeans(s, GenSpec(s));
  }

  /** The loop of `has_any_legal_move` over `ml` from the position `s`: each move is made, its
   *  king tested and unmade, and the loop stops at the first that passes. The pair is the
   *  answer and the position the loop leaves. */
  ghost function AnyRun(s: PosState, ml: seq<Move>, i: nat): (r: (bool, PosState))
    requires i <= |ml| && GenReady(s) && forall k :: 0 <= k < |ml| ==> CanMake(s.stm, ml[k])
    ensures GenReady(r.1) && r.1.stm == s.stm && r.1.epSq == s.epSq && r.1.kingSq[Other(s.stm)] == s.kingSq[Other(s.stm)]
    decreases |ml| - i
  {
    if i == |ml| then (false, s)
    else
      CanMakeDefined(s, ml[i]);
      var b := Back(s, ml[i]);
      if LegalAfter(s, ml[i]) then (true, b)
      else AnyRun(b, ml, i + 1)
  }

  /** When every move round-trips, the loop leaves the position as it found it and answers
   *  whether some move passes the king test. */
  lemma {:induction false} AnyRunRoundTrip(s: PosState, ml: seq<Move>, i: nat)
    requires i <= |ml| && GenReady(s) && forall k :: 0 <= k < |ml| ==> CanMake(s.stm, ml[k]) && RoundTrips(s, ml[k])
    ensures AnyRun(s, ml, i) == (AnyIn(s, ml[i..]), s)
    decreases |ml| - i
  {
    if i < |ml| {
      assert RoundTrips(s, ml[i]);
      assert ml[i..][0] == ml[i] && ml[i..][1..] == ml[i + 1..];
      AnyRunRoundTrip(s, ml, i + 1);
    }
  }

  /** `has_any_legal_move` as written, on any position `gen_pseudo` can run on. */
  ghost function AnyWritten(s: PosState): (r: (bool, PosState))
    requires GenReady(s)
    ensures GenReady(r.1) && r.1.stm == s.stm && r.1.epSq == s.epSq && r.1.kingSq[Other(s.stm)] == s.kingSq[Other(s.stm)]
  {
    GenCanMake(s);
    AnyRun(s, GenSpec(s), 0)
  }

  /** On a coherent position `has_any_legal_move` leaves the position unchanged and answers
   *  whether some generated move passes the king test. */
  lemma AnyWrittenCoherent(s: PosState)
    requires Coherent(s)
    ensures AnyWritten(s) == (AnyLegal(s), s)
  {
    GenCanRoundTrip(s);
    AnyRunRoundTrip(s, GenSpec(s), 0);
    assert GenSpec(s)[0..] == GenSpec(s);
    AnyInGen(s);
  }

  /** `has_any_legal_move`: the answer and the position are those of the as-written loop. */
  method HasAnyLegalMove(pos: Position, atk: LeaperTables, mt: Magics.MagicTables) returns (any: bool)
    requires Perft.Env(pos, atk, mt) && GenReady(pos.State())
    modifies pos, pos.bb, pos.occ, pos.board, pos.kingSq
    ensures Perft.Env(pos, atk, mt)
    ensures pos.bb == old(pos.bb) && pos.occ == old(pos.occ) && pos.board == old(pos.board) && pos.kingSq == old(pos.kingSq)
    ensures pos.halfmoveClock == old(pos.halfmoveClock) && pos.fullmoveNumber == old(pos.fullmoveNumber)
    ensures (any, pos.State()) == AnyWritten(old(pos.State()))
  {
    ghost var s := pos.State();
    var ml := Generate(pos, atk, mt);
    any := Scan(pos, ml, atk, mt, s);
  }

  /** Every generated move of a coherent position can be made, and round-trips. */
  lemma GenCanRoundTrip(s: PosState)
    requires Coherent(s)
    ensures forall k :: 0 <= k < |GenSpec(s)| ==> CanMake(s.stm, GenSpec(s)[k]) && RoundTrips(s, GenSpec(s)[k])
  {
    var ml := GenSpec(s);
    GenCanMake(s);
    forall k | 0 <= k < |ml|
      ensures CanMake(s.stm, ml[k]) && RoundTrips(s, ml[k])
    {
      assert ml[k] in ml;
      GenWrittenRoundTrip(s, ml[k]);
    }
  }

  /** The loop of `has_any_legal_move` over the moves `ml`. */
  method Scan(pos: Position, ml: seq<Move>, atk: LeaperTables, mt: Magics.MagicTables, ghost s: PosState)
    returns (any: bool)
    requires Perft.Env(pos, atk, mt) && pos.State() == s && GenReady(s)
    requires forall k :: 0 <= k < |ml| ==> CanMake(s.stm, ml[k])
    modifies pos, pos.bb, pos.occ, pos.board, pos.kingSq
    ensures Perft.Env(pos, atk, mt)
    ensures pos.bb == old(pos.bb) && pos.occ == old(pos.occ) && pos.board == old(pos.board) && pos.kingSq == old(pos.kingSq)
    ensures pos.halfmoveClock == old(pos.halfmoveClock) && pos.fullmoveNumber == old(pos.fullmoveNumber)
    ensures (any, pos.State()) == AnyRun(s, ml, 0)
  {
    var i := 0;
    while i < |ml|
      invariant 0 <= i <= |ml|
      invariant Perft.Env(pos, atk, mt) && GenReady(pos.State()) && pos.State().stm == s.stm
      invariant pos.bb == old(pos.bb) && pos.occ == old(pos.occ) && pos.board == old(pos.board) && pos.kingSq == old(pos.kingSq)
      invariant pos.halfmoveClock == old(pos.halfmoveClock) && pos.fullmoveNumber == old(pos.fullmoveNumber)
      invariant AnyRun(pos.State(), ml, i) == AnyRun(s, ml, 0)
    {
      var legal := ScanOne(pos, ml, i, atk, mt, pos.State());
      if legal {
        return true;
      }
      i := i + 1;
    }
    assert AnyRun(pos.State(), ml, i) == (false, pos.State());
    return false;
  }

  /** One turn of the loop of `has_any_legal_move`: the king test on `ml[i]`. */
  method ScanOne(pos: Position, ml: seq<Move>, i: nat, atk: LeaperTables, mt: Magics.MagicTables, ghost t: PosState)
    returns (legal: bool)
    requires i < |ml| && Perft.Env(pos, atk, mt) && pos.State() == t && GenReady(t)
    requires forall k :: 0 <= k < |ml| ==> CanMake(t.stm, ml[k])
    modifies pos, pos.bb, pos.occ, pos.board, pos.kingSq
    ensures Perft.Env(pos, atk, mt) && GenReady(pos.State()) && pos.State().stm == t.stm
    ensures pos.bb == old(pos.bb) && pos.occ == old(pos.occ) && pos.board == old(pos.board) && pos.kingSq == old(pos.kingSq)
    ensures pos.halfmoveClock == old(pos.halfmoveClock) && pos.fullmoveNumber == old(pos.fullmoveNumber)
    ensures AnyRun(t, ml, i) == if legal then (true, pos.State()) else AnyRun(pos.State(), ml, i + 1)
  {
    legal := TryMove(pos, ml[i], atk, mt, t);
    CanMakeDefined(t, ml[i]);
    BackReady(t, ml[i]);
  }

  /** Whenever some legal move exists, parsing its own UCI string finds one; so a side with no
   *  answer from `parse_uci_move` to every string has no legal move, and conversely. */
  lemma AnyLegalIffParsable(s: PosState)
    requires Coherent(s)
    requires forall m :: m in GenSpec(s) && HasFlag(MoveFlags(m), MF_PROMO) ==> KNIGHT <= MovePromo(m) <= QUEEN
    ensures AnyLegal(s) <==> (exists u :: ParseSpec(s, u) != 0)
  {
    if AnyLegal(s) {
      var m :| m in GenSpec(s) && LegalAfter(s, m);
      ParseReadsMoveToUci(s, m);
    }
    if exists u :: ParseSpec(s, u) != 0 {
      var u :| ParseSpec(s, u) != 0;
      ParseSound(s, u);
    }
  }
}
