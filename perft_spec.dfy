/** What `perft` (perft.cpp) counts, stated on a `PosState`: the positions it walks through
 *  stay playable, and the count is the sum, over the generated moves that do not leave the
 *  mover's king attacked, of the counts one ply deeper. */
module PerftSpec {
  import opened Types
  import opened Words
  import opened Moves
  import opened PositionSpec
  import opened Attacks
  import opened MoveGenSpec
  import opened Wrappers

  // ---------------------------------------------------------------- playable positions

  /** A position `perft` can walk from: coherent for the generator, both kings on their
   *  recorded squares, every castling right held by a king still on its home square, and the
   *  side that just moved not left in check. */
  ghost predicate Playable(s: PosState)
  {
    && Coherent(s)
    && 0 <= s.kingSq[Other(s.stm)] < 64
    && s.board[s.kingSq[Other(s.stm)]] == Code(Other(s.stm), KING)
    && (forall bit: nat :: bit < 4 && Has(s.castling, bit) ==> s.kingSq[RightColor(bit)] == KingHome(RightColor(bit)))
    && !AttackedOn(s.bb, s.occAll, s.kingSq[Other(s.stm)], s.stm)
  }

  /** The test `perft` applies after `make`: the king of the side that just moved is not
   *  attacked by the side now to move. */
  ghost predicate KingSafeAfter(s: PosState, m: Move)
    requires Shaped(s) && MakeDefined(s, m)
  {
    var t := MakeCorrected(s, m).0;
    0 <= t.kingSq[s.stm] < 64 && !AttackedOn(t.bb, t.occAll, t.kingSq[s.stm], t.stm)
  }

  /** The fields of the position `make` leaves, each in terms of the position before. */
  lemma MadeFacts(s: PosState, m: Move)
    requires Valid(s) && Fits(s, m)
    ensures var t, from, to, p, us := MakeCorrected(s, m).0, MoveFrom(m), MoveTo(m), MovePiece(m), s.stm;
      && Valid(t) && t.board == MakeBoard(s, m) && t.stm == Other(us)
      && t.kingSq == (if p == KING then s.kingSq[us := to] else s.kingSq)
      && t.epSq == (if HasFlag(MoveFlags(m), MF_DBLPAWN) then from + PawnDir(us) else NO_SQ)
      && t.castling == Rights(s.castling, us, p, from, if NormalCapture(m) then to else NO_SQ)
    ensures MadeBoard(MakeBoard(s, m), s, m)
  {
    MakeValid(s, m, CorrectedRights(s, m));
    MakeMailbox(s, m);
  }

  /** A generated move never lands on the enemy king's square while that king is not
   *  attacked: a move onto an occupied square goes to a square the mover attacks. */
  lemma NoKingCapture(s: PosState, m: Move)
    requires Valid(s) && PseudoLegal(s, m)
    requires var k := s.kingSq[Other(s.stm)];
      0 <= k < 64 && s.board[k] == Code(Other(s.stm), KING) && !AttackedOn(s.bb, s.occAll, k, s.stm)
    ensures MoveTo(m) != s.kingSq[Other(s.stm)]
  {
    var k: Square := s.kingSq[Other(s.stm)];
    if MoveTo(m) == k {
      AttackedMailbox(s, k, s.stm);
      assert false;
    }
  }

  /** A king the move neither carries nor lands on stays where it was. */
  lemma KingStays(s: PosState, m: Move, b: seq<BoardCode>, c: Color)
    requires Shaped(s) && Fits(s, m) && |b| == 64 && MadeBoard(b, s, m)
    requires 0 <= s.kingSq[c] < 64 && s.board[s.kingSq[c]] == Code(c, KING)
    requires !(c == s.stm && MovePiece(m) == KING) && MoveTo(m) != s.kingSq[c]
    ensures b[s.kingSq[c]] == Code(c, KING)
  {
    var k := s.kingSq[c];
    CodeInjective(s.stm, MovePiece(m), c, KING);
    if HasFlag(MoveFlags(m), MF_EP) {
      CodeInjective(Other(s.stm), PAWN, c, KING);
    }
    if HasFlag(MoveFlags(m), MF_CASTLE) {
      CodeInjective(s.stm, ROOK, c, KING);
    }
  }

  /** Neither king is taken or displaced, and a moving king lands on its new square. */
  lemma KingAfter(s: PosState, m: Move, b: seq<BoardCode>, c: Color)
    requires Playable(s) && PseudoLegal(s, m) && |b| == 64 && MadeBoard(b, s, m)
    ensures var ks := if MovePiece(m) == KING then s.kingSq[s.stm := MoveTo(m)] else s.kingSq;
      0 <= ks[c] < 64 && b[ks[c]] == Code(c, KING)
  {
    if c == s.stm && MovePiece(m) == KING {
      assert b[MoveTo(m)] == Code(s.stm, Placed(m));
    } else {
      if c != s.stm {
        NoKingCapture(s, m);
      }
      KingStays(s, m, b, c);
    }
  }

  /** After a double push the en-passant square is the empty square the pawn passed over, with
   *  the pawn itself behind it as seen by the side now to move. */
  lemma EpStays(s: PosState, m: Move, b: seq<BoardCode>)
    requires Shaped(s) && PseudoLegal(s, m) && |b| == 64 && MadeBoard(b, s, m)
    requires HasFlag(MoveFlags(m), MF_DBLPAWN)
    ensures var e := MoveFrom(m) + PawnDir(s.stm);
      && 0 <= e < 64 && b[e] == EMPTY_CODE
      && 0 <= EpVictim(Other(s.stm), e) < 64
      && b[EpVictim(Other(s.stm), e)] == Code(s.stm, PAWN)
  {
    assert !HasFlag(MoveFlags(m), MF_EP) && !HasFlag(MoveFlags(m), MF_CASTLE) && !HasFlag(MoveFlags(m), MF_PROMO);
  }

  lemma MadeEp(s: PosState, m: Move)
    requires Playable(s) && PseudoLegal(s, m)
    ensures var t := MakeCorrected(s, m).0;
      t.epSq != NO_SQ ==>
        && 0 <= t.epSq < 64 && t.board[t.epSq] == EMPTY_CODE
        && 0 <= EpVictim(t.stm, t.epSq) < 64
        && t.board[EpVictim(t.stm, t.epSq)] == Code(Other(t.stm), PAWN)
  {
    MadeFacts(s, m);
    if HasFlag(MoveFlags(m), MF_DBLPAWN) {
      EpStays(s, m, MakeBoard(s, m));
    }
  }

  /** Every right left standing belongs to a king still on its home square. */
  lemma MadeRights(s: PosState, m: Move)
    requires Playable(s) && PseudoLegal(s, m)
    ensures var t := MakeCorrected(s, m).0;
      forall bit: nat :: bit < 4 && Has(t.castling, bit) ==> t.kingSq[RightColor(bit)] == KingHome(RightColor(bit))
  {
    var t := MakeCorrected(s, m).0;
    var from, to, p, us := MoveFrom(m), MoveTo(m), MovePiece(m), s.stm;
    MadeFacts(s, m);
    forall bit: nat | bit < 4 && Has(t.castling, bit)
      ensures t.kingSq[RightColor(bit)] == KingHome(RightColor(bit))
    {
      RightsHas(s.castling, us, p, from, if NormalCapture(m) then to else NO_SQ, bit);
    }
  }

  /** A generated move that passes the king test leads from a playable position to a playable
   *  one: the invariant of the positions `perft` visits. */
  lemma MakePlayable(s: PosState, m: Move)
    requires Playable(s) && PseudoLegal(s, m) && KingSafeAfter(s, m)
    ensures Playable(MakeCorrected(s, m).0)
  {
    MadeFacts(s, m);
    KingAfter(s, m, MakeBoard(s, m), s.stm);
    KingAfter(s, m, MakeBoard(s, m), Other(s.stm));
    MadeEp(s, m);
    MadeRights(s, m);
    MakeKeepsRightsBacked(s, m);
  }

  /** After a generated move the side to move has switched and the king of the side that just
   *  moved has a square on the board, the square `perft` tests. */
  lemma MadeMover(s: PosState, m: Move)
    requires Coherent(s) && PseudoLegal(s, m)
    ensures var t := MakeCorrected(s, m).0;
      Valid(t) && t.stm == Other(s.stm) && Other(t.stm) == s.stm && 0 <= t.kingSq[s.stm] < 64
  {
    MadeFacts(s, m);
  }

  /** The king test on the position `make` leaves, read back as `KingSafeAfter`. */
  lemma SafeAfterMeans(s: PosState, m: Move, t: PosState)
    requires Coherent(s) && PseudoLegal(s, m) && t == MakeCorrected(s, m).0
    ensures 0 <= t.kingSq[Other(t.stm)] < 64
    ensures KingSafeAfter(s, m) <==> !AttackedOn(t.bb, t.occAll, t.kingSq[Other(t.stm)], t.stm)
  {
    MadeMover(s, m);
  }

  // ---------------------------------------------------------------- the count

  ghost predicate AllPseudoLegal(s: PosState, ms: seq<Move>)
    requires Shaped(s)
  {
    forall i :: 0 <= i < |ms| ==> PseudoLegal(s, ms[i])
  }

  lemma GenAllPseudoLegal(s: PosState)
    requires Coherent(s)
    ensures AllPseudoLegal(s, GenSpec(s))
  {
    GenFits(s);
  }

  /** `perft(pos, depth)`: one leaf at depth 0, else the counts below every generated move that
   *  does not leave the mover's king attacked. */
  ghost function Nodes(s: PosState, depth: nat): nat
    decreases depth, 3, 0
  {
    if depth == 0 then 1 else NodesBelow(s, depth - 1)
  }

  /** `perft(pos, d + 1)`: the counts `d` plies below each generated move. */
  ghost function NodesBelow(s: PosState, d: nat): nat
    decreases d + 1, 2, 0
  {
    if Playable(s) then NodesOver(s, GenSpec(s), d) else 0
  }

  /** The count below one move: nothing when the move leaves the mover's king attacked. */
  ghost function Child(s: PosState, m: Move, d: nat): nat
    decreases d + 1, 0, 0
  {
    if Playable(s) && PseudoLegal(s, m) && KingSafeAfter(s, m) then Nodes(MakeCorrected(s, m).0, d)
    else 0
  }

  /** The counts below the moves of `ms`, added in list order. */
  ghost function NodesOver(s: PosState, ms: seq<Move>, d: nat): nat
    decreases d + 1, 1, |ms|
  {
    if ms == [] then 0
    else NodesOver(s, ms[..|ms| - 1], d) + Child(s, ms[|ms| - 1], d)
  }

  lemma NodesOverStep(s: PosState, ms: seq<Move>, i: nat, d: nat)
    requires i < |ms|
    ensures NodesOver(s, ms[..i + 1], d) == NodesOver(s, ms[..i], d) + Child(s, ms[i], d)
  {
    assert ms[..i + 1][..i] == ms[..i];
  }

  /** One ply below a playable position, `Nodes` is the sum over the generated moves. */
  lemma BelowCount(s: PosState, d: nat)
    requires Playable(s)
    ensures Nodes(s, d + 1) == NodesOver(s, GenSpec(s), d)
  {
  }

  // ---------------------------------------------------------------- splitting the root moves

  /** The sum of a list of counts. */
  function Total(xs: seq<nat>): (r: nat)
    ensures xs == [] ==> r == 0
  {
    if xs == [] then 0 else Total(xs[..|xs| - 1]) + xs[|xs| - 1]
  }

  /** What worker `tid` of `threads` adds up: the entries at `tid`, `tid + threads`, and so on. */
  function Stride(xs: seq<nat>, tid: nat, threads: nat): (r: nat)
    requires threads >= 1
    decreases |xs| - tid
  {
    if tid >= |xs| then 0 else xs[tid] + Stride(xs, tid + threads, threads)
  }

  /** The `partial` vector the workers fill. */
  function Partials(xs: seq<nat>, threads: nat): (r: seq<nat>)
    requires threads >= 1
    ensures |r| == threads
  {
    seq(threads, tid requires 0 <= tid < threads => Stride(xs, tid, threads))
  }

  /** Stepping by `threads` from `t` reaches index `n`. */
  predicate Reaches(t: nat, n: nat, threads: nat)
    requires threads >= 1
    decreases n - t
  {
    t == n || (t < n && Reaches(t + threads, n, threads))
  }

  /** The worker whose stride reaches index `n`: `n` itself when it is below `threads`, else
   *  the owner of `n - threads`. */
  function Owner(n: nat, threads: nat): (tid: nat)
    requires threads >= 1
    ensures tid < threads
  {
    if n < threads then n else Owner(n - threads, threads)
  }

  lemma {:induction false} ReachesShift(t: nat, n: nat, threads: nat)
    requires threads >= 1
    ensures Reaches(t + threads, n + threads, threads) <==> Reaches(t, n, threads)
    decreases n - t
  {
    if t < n {
      ReachesShift(t + threads, n, threads);
    }
  }

  /** Each root move index is visited by exactly one worker, its owner. */
  lemma {:induction false} ReachesOwner(tid: nat, n: nat, threads: nat)
    requires threads >= 1 && tid < threads
    ensures Reaches(tid, n, threads) <==> tid == Owner(n, threads)
    decreases n
  {
    if n >= threads {
      ReachesOwner(tid, n - threads, threads);
      ReachesShift(tid, n - threads, threads);
    } else {
      assert !Reaches(tid + threads, n, threads);
    }
  }

  /** Appending an entry adds it to the one worker whose stride reaches it. */
  lemma {:induction false} StrideSnoc(xs: seq<nat>, x: nat, tid: nat, threads: nat)
    requires threads >= 1
    ensures Stride(xs + [x], tid, threads) == Stride(xs, tid, threads) + (if Reaches(tid, |xs|, threads) then x else 0)
    decreases |xs| - tid
  {
    if tid < |xs| {
      StrideSnoc(xs, x, tid + threads, threads);
      assert (xs + [x])[tid] == xs[tid];
    } else if tid == |xs| {
      assert (xs + [x])[tid] == x;
    }
  }

  /** Adding `x` to one entry adds `x` to the total. */
  lemma {:induction false} TotalBump(ys: seq<nat>, j: nat, x: nat)
    requires j < |ys|
    ensures Total(ys[j := ys[j] + x]) == Total(ys) + x
    decreases |ys|
  {
    var n := |ys| - 1;
    if j < n {
      TotalBump(ys[..n], j, x);
      assert ys[j := ys[j] + x][..n] == ys[..n][j := ys[j] + x];
    } else {
      assert ys[j := ys[j] + x][..n] == ys[..n];
    }
  }

  /** The partial sums of the workers add up to the sum over all root moves. */
  lemma {:induction false} PartialsTotal(xs: seq<nat>, threads: nat)
    requires threads >= 1
    ensures Total(Partials(xs, threads)) == Total(xs)
    decreases |xs|
  {
    if xs == [] {
      assert Partials(xs, threads) == seq(threads, _ => 0);
      ZeroTotal(threads);
    } else {
      var n := |xs| - 1;
      var init, x := xs[..n], xs[n];
      assert init + [x] == xs;
      PartialsTotal(init, threads);
      var j := Owner(n, threads);
      forall tid | 0 <= tid < threads
        ensures Partials(xs, threads)[tid] == Partials(init, threads)[j := Partials(init, threads)[j] + x][tid]
      {
        StrideSnoc(init, x, tid, threads);
        ReachesOwner(tid, n, threads);
      }
      assert Partials(xs, threads) == Partials(init, threads)[j := Partials(init, threads)[j] + x];
      TotalBump(Partials(init, threads), j, x);
    }
  }

  lemma {:induction false} ZeroTotal(n: nat)
    ensures Total(seq(n, _ => 0)) == 0
  {
    if n > 0 {
      assert seq(n, _ => 0)[..n - 1] == seq(n - 1, _ => 0);
      ZeroTotal(n - 1);
    }
  }

  /** The counts below each root move, in list order. */
  ghost function ChildCounts(s: PosState, ms: seq<Move>, d: nat): (r: seq<nat>)
    ensures |r| == |ms|
  {
    seq(|ms|, i requires 0 <= i < |ms| => Child(s, ms[i], d))
  }

  lemma {:induction false} NodesOverTotal(s: PosState, ms: seq<Move>, d: nat)
    ensures NodesOver(s, ms, d) == Total(ChildCounts(s, ms, d))
    decreases |ms|
  {
    if ms != [] {
      var n := |ms| - 1;
      NodesOverTotal(s, ms[..n], d);
      ChildCountsLast(s, ms, d);
    }
  }

  /** The counts below all but the last move, and the count below the last one. */
  lemma ChildCountsLast(s: PosState, ms: seq<Move>, d: nat)
    requires ms != []
    ensures Total(ChildCounts(s, ms, d))
         == Total(ChildCounts(s, ms[..|ms| - 1], d)) + Child(s, ms[|ms| - 1], d)
  {
    var cs, n := ChildCounts(s, ms, d), |ms| - 1;
    assert cs[..n] == ChildCounts(s, ms[..n], d);
  }

  /** `perft_root_mt` as intended: `perft` on the root with one thread or at depth 0; with
   *  more threads, each worker sums the counts below its share of the root moves, and the
   *  partial sums are added up. */
  ghost function PerftRootMt(s: PosState, depth: nat, threads: int): nat
    requires Playable(s)
  {
    if threads <= 1 || depth == 0 then Nodes(s, depth)
    else Total(Partials(ChildCounts(s, GenSpec(s), depth - 1), threads))
  }

  /** Adding up per-thread partial sums of the child counts gives the count over the moves. */
  lemma OverAgrees(s: PosState, ms: seq<Move>, d: nat, threads: nat)
    requires threads >= 1
    ensures Total(Partials(ChildCounts(s, ms, d), threads)) == NodesOver(s, ms, d)
  {
    PartialsTotal(ChildCounts(s, ms, d), threads);
    NodesOverTotal(s, ms, d);
  }

  /** With more than one thread, the split count one ply above the children's depth `d`. */
  lemma RootMtSplit(s: PosState, d: nat, threads: int)
    requires Playable(s) && threads > 1
    ensures PerftRootMt(s, d + 1, threads) == Total(Partials(ChildCounts(s, GenSpec(s), d), threads))
  {
  }

  /** Splitting the root moves among threads does not change the count at any depth above 0
   *  (at depth 0 both are 1 by definition). */
  lemma PerftRootMtAgrees(s: PosState, d: nat, threads: int)
    requires Playable(s)
    ensures PerftRootMt(s, d + 1, threads) == Nodes(s, d + 1)
  {
    if threads > 1 {
      OverAgrees(s, GenSpec(s), d, threads);
    }
  }

  /** What the threaded branch of `perft_root_mt` adds up, `d` being `depth - 1`, is both the
   *  split count and `perft` at `depth`. */
  lemma SplitTotal(s: PosState, depth: nat, d: nat, threads: int, total: nat)
    requires Playable(s) && threads > 1 && d + 1 == depth
    requires total == Total(Partials(ChildCounts(s, GenSpec(s), d), threads))
    ensures total == PerftRootMt(s, depth, threads) && total == Nodes(s, depth)
  {
    RootMtSplit(s, d, threads);
    PerftRootMtAgrees(s, d, threads);
  }

  // ---------------------------------------------------------------- the depth as an int

  /** The moves `perft` tries from `s`: the generated ones, from a position it can walk from. */
  ghost function PerftMoves(s: PosState): seq<Move>
  {
    if Playable(s) then GenSpec(s) else []
  }

  /** The position `perft` recurses into after `m`: none when the move leaves the mover's
   *  king attacked. */
  ghost function After(s: PosState, m: Move): Option<PosState>
  {
    if Playable(s) && PseudoLegal(s, m) && KingSafeAfter(s, m) then Some(MakeCorrected(s, m).0) else None
  }

  /** `perft` on its `int` depth, with the moves it tries (`moves`) and the positions it
   *  recurses into (`next`) given, allowed `fuel` levels of recursion: `None` when the fuel
   *  runs out before every branch has returned. Only depth 0 is a leaf, so a negative depth
   *  keeps recursing until no branch has a move left. */
  ghost function NodesInt(moves: PosState -> seq<Move>, next: (PosState, Move) -> Option<PosState>,
                          s: PosState, depth: int, fuel: nat): Option<nat>
    decreases fuel, 3, 0
  {
    if depth == 0 then Some(1)
    else if fuel == 0 then None
    else NodesOverInt(moves, next, s, moves(s), depth - 1, fuel - 1)
  }

  /** The count below one move on an `int` depth. */
  ghost function ChildInt(moves: PosState -> seq<Move>, next: (PosState, Move) -> Option<PosState>,
                          s: PosState, m: Move, d: int, fuel: nat): Option<nat>
    decreases fuel + 1, 0, 0
  {
    match next(s, m)
    case Some(t) => NodesInt(moves, next, t, d, fuel)
    case None => Some(0)
  }

  /** The counts below the moves of `ms` on an `int` depth, added in list order. */
  ghost function NodesOverInt(moves: PosState -> seq<Move>, next: (PosState, Move) -> Option<PosState>,
                              s: PosState, ms: seq<Move>, d: int, fuel: nat): Option<nat>
    decreases fuel + 1, 1, |ms|
  {
    if ms == [] then Some(0)
    else
      match (NodesOverInt(moves, next, s, ms[..|ms| - 1], d, fuel), ChildInt(moves, next, s, ms[|ms| - 1], d, fuel))
      case (Some(a), Some(b)) => Some(a + b)
      case _ => None
  }

  /** `perft(pos, depth)` as written, on its `int` depth: `Nodes` from depth 0 up, and below
   *  0 the recursion that never meets its leaf. */
  ghost function PerftInt(s: PosState, depth: int, fuel: nat): Option<nat>
  {
    if depth >= 0 then Some(Nodes(s, depth)) else NodesInt(PerftMoves, After, s, depth, fuel)
  }

  /** Below depth 0 no branch ever reaches a leaf: whenever the recursion returns, it returns
   *  0, whatever moves and positions it walks through. */
  lemma {:induction false} NegativeDepthCountsNothing(moves: PosState -> seq<Move>, next: (PosState, Move) -> Option<PosState>,
                                                      s: PosState, depth: int, fuel: nat)
    requires depth < 0
    ensures NodesInt(moves, next, s, depth, fuel) == None || NodesInt(moves, next, s, depth, fuel) == Some(0)
    decreases fuel, 3, 0
  {
    if fuel != 0 {
      NegativeOverCountsNothing(moves, next, s, moves(s), depth - 1, fuel - 1);
    }
  }

  lemma {:induction false} NegativeOverCountsNothing(moves: PosState -> seq<Move>, next: (PosState, Move) -> Option<PosState>,
                                                     s: PosState, ms: seq<Move>, d: int, fuel: nat)
    requires d < 0
    ensures NodesOverInt(moves, next, s, ms, d, fuel) == None || NodesOverInt(moves, next, s, ms, d, fuel) == Some(0)
    decreases fuel + 1, 1, |ms|
  {
    if ms != [] {
      NegativeOverCountsNothing(moves, next, s, ms[..|ms| - 1], d, fuel);
      if next(s, ms[|ms| - 1]).Some? {
        NegativeDepthCountsNothing(moves, next, next(s, ms[|ms| - 1]).value, d, fuel);
      }
    }
  }

  /** `perft_root_mt` as written, on an `int` depth: one thread runs `perft(root, depth)`;
   *  more threads add up `perft(child, depth - 1)` over the legal root moves, whatever the
   *  depth (how the moves are dealt out does not change the sum, `OverAgrees`). */
  ghost function PerftRootMtAsWritten(s: PosState, depth: int, threads: int, fuel: nat): Option<nat>
    requires Playable(s)
  {
    if threads <= 1 then PerftInt(s, depth, fuel)
    else NodesOverInt(PerftMoves, After, s, PerftMoves(s), depth - 1, fuel)
  }

  /** At depth 0 the written `perft_root_mt` disagrees with itself: one thread counts the
   *  root as one leaf, while several threads hand every legal root move `perft(child, -1)`,
   *  which either never returns or returns 0. */
  lemma RootMtDepthZeroAsWritten(s: PosState, threads: int, fuel: nat)
    requires Playable(s) && threads > 1
    ensures PerftRootMtAsWritten(s, 0, 1, fuel) == Some(1)
    ensures PerftRootMtAsWritten(s, 0, threads, fuel) != Some(1)
  {
    NegativeOverCountsNothing(PerftMoves, After, s, PerftMoves(s), -1, fuel);
  }
}
