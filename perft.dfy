/** `perft` and `perft_root_mt` (perft.cpp) as methods on the `Position` class, proved to
 *  compute the counts `PerftSpec` defines. The worker threads of `perft_root_mt` run one
 *  after the other here. */
module Perft {
  import opened Types
  import opened Moves
  import opened PositionSpec
  import opened Attacks
  import opened MoveGenSpec
  import opened PerftSpec
  import Magics
  import opened Position

  /** The tables the generator reads are not the position's own arrays, so making moves on the
   *  position leaves them as they were. */
  ghost predicate Apart(pos: Position, atk: LeaperTables)
    reads pos, atk
  {
    pos.bb != atk.knight && pos.bb != atk.king && pos.occ != atk.knight && pos.occ != atk.king
  }

  ghost predicate Tables(atk: LeaperTables, mt: Magics.MagicTables)
    reads atk, atk.pawn, atk.knight, atk.king, mt, mt.rookInfo, mt.bishopInfo, mt.rookTable, mt.bishopTable
  {
    atk.Valid() && atk.Filled() && mt.Valid() && mt.Sound()
  }

  /** What the methods below need besides the position itself: its arrays allocated, and the
   *  attack tables filled and apart from them. */
  ghost predicate Env(pos: Position, atk: LeaperTables, mt: Magics.MagicTables)
    reads pos, atk, atk.pawn, atk.knight, atk.king, mt, mt.rookInfo, mt.bishopInfo, mt.rookTable, mt.bishopTable
  {
    pos.Ready() && Tables(atk, mt) && Apart(pos, atk)
  }

  /** `perft(pos, depth)`: the number of leaves `depth` plies below `pos`, counting only moves
   *  that do not leave the mover's king attacked. Every move is unmade again, so `pos` ends as
   *  it started. */
  method Perft(pos: Position, depth: nat, atk: LeaperTables, mt: Magics.MagicTables) returns (nodes: nat)
    requires Env(pos, atk, mt) && Playable(pos.State())
    modifies pos, pos.bb, pos.occ, pos.board, pos.kingSq
    ensures Env(pos, atk, mt) && pos.State() == old(pos.State())
    ensures pos.bb == old(pos.bb) && pos.occ == old(pos.occ) && pos.board == old(pos.board) && pos.kingSq == old(pos.kingSq)
    ensures nodes == Nodes(old(pos.State()), depth)
    decreases depth, 1
  {
    if depth == 0 {
      return 1;
    }
    var d := depth - 1;
    ghost var s := pos.State();
    nodes := PerftAbove(pos, d, atk, mt);
    SameDepth(s, depth, d);
  }

  lemma SameDepth(s: PosState, depth: nat, d: nat)
    requires depth == d + 1
    ensures Nodes(s, depth) == Nodes(s, d + 1)
  {
  }

  /** `perft(pos, d + 1)`: the moves generated, then the counts `d` plies below them. */
  method PerftAbove(pos: Position, d: nat, atk: LeaperTables, mt: Magics.MagicTables) returns (nodes: nat)
    requires Env(pos, atk, mt) && Playable(pos.State())
    modifies pos, pos.bb, pos.occ, pos.board, pos.kingSq
    ensures Env(pos, atk, mt) && pos.State() == old(pos.State())
    ensures pos.bb == old(pos.bb) && pos.occ == old(pos.occ) && pos.board == old(pos.board) && pos.kingSq == old(pos.kingSq)
    ensures nodes == Nodes(old(pos.State()), d + 1)
    decreases d, 6
  {
    ghost var s := pos.State();
    var ml := Generate(pos, atk, mt);
    nodes := CountAll(pos, ml, d, atk, mt);
    BelowCount(s, d);
  }

  /** The loop of `perft`: the counts below the generated moves, added in list order. */
  method CountAll(pos: Position, ml: seq<Move>, d: nat, atk: LeaperTables, mt: Magics.MagicTables) returns (nodes: nat)
    requires Env(pos, atk, mt) && Playable(pos.State()) && ml == GenSpec(pos.State())
    modifies pos, pos.bb, pos.occ, pos.board, pos.kingSq
    ensures Env(pos, atk, mt) && pos.State() == old(pos.State())
    ensures pos.bb == old(pos.bb) && pos.occ == old(pos.occ) && pos.board == old(pos.board) && pos.kingSq == old(pos.kingSq)
    ensures nodes == NodesOver(old(pos.State()), ml, d)
    decreases d, 5
  {
    ghost var s := pos.State();
    nodes := 0;
    var i := 0;
    while i < |ml|
      invariant 0 <= i <= |ml|
      invariant Env(pos, atk, mt) && pos.State() == s
      invariant pos.bb == old(pos.bb) && pos.occ == old(pos.occ) && pos.board == old(pos.board) && pos.kingSq == old(pos.kingSq)
      invariant nodes == NodesOver(s, ml[..i], d)
    {
      nodes := AddChild(pos, ml, i, d, atk, mt, nodes);
      i := i + 1;
    }
    assert ml[..i] == ml;
  }

  /** One turn of the loop of `perft`: the count below move `i` added to the running total. */
  method AddChild(pos: Position, ml: seq<Move>, i: nat, d: nat, atk: LeaperTables, mt: Magics.MagicTables, nodes: nat)
    returns (total: nat)
    requires Env(pos, atk, mt) && Playable(pos.State()) && ml == GenSpec(pos.State()) && i < |ml|
    requires nodes == NodesOver(pos.State(), ml[..i], d)
    modifies pos, pos.bb, pos.occ, pos.board, pos.kingSq
    ensures Env(pos, atk, mt) && pos.State() == old(pos.State())
    ensures pos.bb == old(pos.bb) && pos.occ == old(pos.occ) && pos.board == old(pos.board) && pos.kingSq == old(pos.kingSq)
    ensures total == NodesOver(old(pos.State()), ml[..i + 1], d)
    decreases d, 4
  {
    var c := CountChild(pos, ml[i], d, atk, mt);
    NodesOverStep(old(pos.State()), ml, i, d);
    total := nodes + c;
  }

  /** `gen_pseudo` into a fresh list; the position and the tables stay as they were. */
  method Generate(pos: Position, atk: LeaperTables, mt: Magics.MagicTables) returns (ml: seq<Move>)
    requires Env(pos, atk, mt) && Playable(pos.State())
    ensures Env(pos, atk, mt)
    ensures ml == GenSpec(pos.State())
  {
    ml := pos.GenPseudo(atk, mt);
  }

  /** `m` is one of the moves `gen_pseudo` produces in the coherent position `s`. */
  ghost predicate Generated(s: PosState, m: Move)
  {
    Coherent(s) && m in GenSpec(s) && PseudoLegal(s, m)
  }

  /** `make` is defined for `m` in `s`. */
  ghost predicate Makeable(s: PosState, m: Move)
  {
    Shaped(s) && MakeDefined(s, m)
  }

  /** `m` is generated in the playable position `s` and passes the king test. */
  ghost predicate Passed(s: PosState, m: Move)
  {
    Playable(s) && Generated(s, m) && KingSafeAfter(s, m)
  }

  lemma GenGenerated(s: PosState, m: Move)
    requires Playable(s) && m in GenSpec(s)
    ensures Generated(s, m) && Makeable(s, m)
  {
    GenFits(s);
  }

  /** The body of the loops of `perft` and of a worker: make a generated move, count below it
   *  when the mover's king is not attacked, unmake it. */
  method CountChild(pos: Position, m: Move, d: nat, atk: LeaperTables, mt: Magics.MagicTables) returns (c: nat)
    requires Env(pos, atk, mt) && Playable(pos.State()) && m in GenSpec(pos.State())
    modifies pos, pos.bb, pos.occ, pos.board, pos.kingSq
    ensures Env(pos, atk, mt) && pos.State() == old(pos.State())
    ensures pos.bb == old(pos.bb) && pos.occ == old(pos.occ) && pos.board == old(pos.board) && pos.kingSq == old(pos.kingSq)
    ensures c == Child(old(pos.State()), m, d)
    decreases d, 3
  {
    ghost var s := pos.State();
    GenGenerated(s, m);
    var u := ApplyMove(pos, m, atk, mt);
    SafeAfterMeans(s, m, pos.State());
    var safe := KingSafe(pos, atk, mt, pos.State());
    c := 0;
    if safe {
      assert Passed(s, m);
      c := CountBelow(pos, m, d, atk, mt, s);
    }
    UndoMove(pos, m, u, atk, mt, s);
  }

  /** `make` on the position; the tables stay as they were. */
  method ApplyMove(pos: Position, m: Move, atk: LeaperTables, mt: Magics.MagicTables) returns (u: Undo)
    requires Env(pos, atk, mt) && Makeable(pos.State(), m)
    modifies pos, pos.bb, pos.occ, pos.board, pos.kingSq
    ensures Env(pos, atk, mt) && (pos.State(), u) == PositionSpec.MakeCorrected(old(pos.State()), m)
    ensures pos.bb == old(pos.bb) && pos.occ == old(pos.occ) && pos.board == old(pos.board) && pos.kingSq == old(pos.kingSq)
  {
    u := pos.MakeCorrected(m);
  }

  /** The test `perft` applies after `make`: the king of the side not to move is not attacked
   *  by the side to move. */
  method KingSafe(pos: Position, atk: LeaperTables, mt: Magics.MagicTables, ghost t: PosState) returns (safe: bool)
    requires Env(pos, atk, mt) && pos.State() == t && 0 <= t.kingSq[Other(t.stm)] < 64
    ensures Env(pos, atk, mt)
    ensures safe == !AttackedOn(t.bb, t.occAll, t.kingSq[Other(t.stm)], t.stm)
  {
    var justMoved := Other(pos.stm);
    var ksq := pos.kingSq[justMoved];
    var attacked := pos.IsAttacked(ksq, pos.stm, atk, mt);
    safe := !attacked;
  }

  /** The recursive call of `perft`, one ply below a move that passed the king test. */
  method CountBelow(pos: Position, m: Move, d: nat, atk: LeaperTables, mt: Magics.MagicTables, ghost s: PosState)
    returns (c: nat)
    requires Passed(s, m) && Env(pos, atk, mt) && pos.State() == MakeCorrected(s, m).0
    modifies pos, pos.bb, pos.occ, pos.board, pos.kingSq
    ensures Env(pos, atk, mt) && pos.State() == old(pos.State())
    ensures pos.bb == old(pos.bb) && pos.occ == old(pos.occ) && pos.board == old(pos.board) && pos.kingSq == old(pos.kingSq)
    ensures c == Child(s, m, d)
    decreases d, 2
  {
    MakePlayable(s, m);
    c := Perft(pos, d, atk, mt);
  }

  /** `unmake` of a generated move restores the position it was made from. */
  method UndoMove(pos: Position, m: Move, u: Undo, atk: LeaperTables, mt: Magics.MagicTables, ghost s: PosState)
    requires Generated(s, m)
    requires Env(pos, atk, mt) && (pos.State(), u) == MakeCorrected(s, m)
    modifies pos, pos.bb, pos.occ, pos.board, pos.kingSq
    ensures Env(pos, atk, mt) && pos.State() == s
    ensures pos.bb == old(pos.bb) && pos.occ == old(pos.occ) && pos.board == old(pos.board) && pos.kingSq == old(pos.kingSq)
  {
    GenMakeUnmake(s, m);
    RetractMove(pos, m, u, atk, mt);
  }

  /** `unmake` on the position; the tables stay as they were. */
  method RetractMove(pos: Position, m: Move, u: Undo, atk: LeaperTables, mt: Magics.MagicTables)
    requires Env(pos, atk, mt) && UnmakeDefined(pos.State(), m, u)
    modifies pos, pos.bb, pos.occ, pos.board, pos.kingSq
    ensures Env(pos, atk, mt) && pos.State() == PositionSpec.Unmake(old(pos.State()), m, u)
    ensures pos.bb == old(pos.bb) && pos.occ == old(pos.occ) && pos.board == old(pos.board) && pos.kingSq == old(pos.kingSq)
    ensures pos.halfmoveClock == old(pos.halfmoveClock) && pos.fullmoveNumber == old(pos.fullmoveNumber)
  {
    pos.Unmake(m, u);
  }

  /** One worker of `perft_root_mt` (`d` is `depth - 1`): on its own copy of the root, the
   *  counts below the root moves `tid`, `tid + threads`, and so on. */
  method Worker(root: Position, ml: seq<Move>, tid: nat, d: nat, threads: nat,
                atk: LeaperTables, mt: Magics.MagicTables, ghost s: PosState, ghost counts: seq<nat>, ghost sums: seq<nat>)
    returns (sum: nat)
    requires RootAt(root, atk, mt, s) && Dealt(s, ml, d, threads, counts, sums) && tid < threads
    ensures sum == sums[tid]
  {
    var p := Fork(root, atk, mt, s);
    sum := StrideSum(p, ml, tid, d, threads, atk, mt, s, counts);
  }

  /** `Position local = root;`: a worker's own copy of the root. */
  method Fork(root: Position, atk: LeaperTables, mt: Magics.MagicTables, ghost s: PosState) returns (p: Position)
    requires root.Ready() && root.State() == s && Tables(atk, mt)
    ensures fresh(p) && fresh(p.bb) && fresh(p.occ) && fresh(p.board) && fresh(p.kingSq)
    ensures Env(p, atk, mt) && p.State() == s && Detached(p, root)
  {
    p := new Position.Copy(root);
  }

  /** `p` shares no object with `root`. */
  ghost predicate Detached(p: Position, root: Position)
    reads p, root
  {
    && p != root && p.bb != root.bb && p.bb != root.occ && p.occ != root.bb && p.occ != root.occ
    && p.board != root.board && p.kingSq != root.kingSq
  }

  /** The loop of a worker, on its copy `p` of the root. */
  method StrideSum(p: Position, ml: seq<Move>, tid: nat, d: nat, threads: nat,
                   atk: LeaperTables, mt: Magics.MagicTables, ghost s: PosState, ghost counts: seq<nat>) returns (sum: nat)
    requires Env(p, atk, mt) && p.State() == s
    requires Playable(s) && ml == GenSpec(s) && threads >= 1 && counts == ChildCounts(s, ml, d)
    modifies p, p.bb, p.occ, p.board, p.kingSq
    ensures Env(p, atk, mt) && p.State() == s
    ensures sum == Stride(counts, tid, threads)
  {
    sum := 0;
    var i := tid;
    while i < |ml|
      invariant Env(p, atk, mt) && p.State() == s
      invariant p.bb == old(p.bb) && p.occ == old(p.occ) && p.board == old(p.board) && p.kingSq == old(p.kingSq)
      invariant sum + Stride(counts, i, threads) == Stride(counts, tid, threads)
      decreases |ml| - i
    {
      sum := AddStrided(p, ml, i, d, atk, mt, s, counts, sum);
      i := i + threads;
    }
  }

  /** One turn of a worker's loop: the count below root move `i` added to its running sum. */
  method AddStrided(p: Position, ml: seq<Move>, i: nat, d: nat, atk: LeaperTables, mt: Magics.MagicTables,
                    ghost s: PosState, ghost counts: seq<nat>, sum: nat) returns (total: nat)
    requires Env(p, atk, mt) && p.State() == s
    requires Playable(s) && ml == GenSpec(s) && i < |ml| && counts == ChildCounts(s, ml, d)
    modifies p, p.bb, p.occ, p.board, p.kingSq
    ensures Env(p, atk, mt) && p.State() == s
    ensures p.bb == old(p.bb) && p.occ == old(p.occ) && p.board == old(p.board) && p.kingSq == old(p.kingSq)
    ensures total == sum + counts[i]
  {
    var c := CountChild(p, ml[i], d, atk, mt);
    total := sum + c;
  }

  /** The root split the workers share: the generated root moves `ml` of a playable `s`,
   *  the count below each of them, and the sum each of `threads` workers is to produce. */
  ghost predicate Dealt(s: PosState, ml: seq<Move>, d: nat, threads: nat, counts: seq<nat>, sums: seq<nat>)
  {
    Playable(s) && ml == GenSpec(s) && threads >= 1 && counts == ChildCounts(s, ml, d) && sums == Partials(counts, threads)
  }

  /** The workers of `perft_root_mt`, one after the other, each writing its slot of `partial`. */
  method RunWorkers(root: Position, ml: seq<Move>, d: nat, threads: nat, atk: LeaperTables, mt: Magics.MagicTables)
    returns (partial: array<nat>)
    requires root.Ready() && Playable(root.State()) && Tables(atk, mt)
    requires ml == GenSpec(root.State()) && threads >= 1
    ensures fresh(partial) && partial[..] == Partials(ChildCounts(root.State(), ml, d), threads)
  {
    ghost var s := root.State();
    ghost var counts := ChildCounts(s, ml, d);
    ghost var sums := Partials(counts, threads);
    var slots := FillSlots(root, ml, d, threads, atk, mt, s, counts, sums);
    partial := ToArray(slots);
  }

  /** A new array holding `xs`. */
  method ToArray(xs: seq<nat>) returns (a: array<nat>)
    ensures fresh(a) && a[..] == xs
  {
    a := new nat[|xs|](k requires 0 <= k < |xs| => xs[k]);
  }

  /** The root the workers copy holds `s`, and the attack tables are ready. */
  ghost predicate RootAt(root: Position, atk: LeaperTables, mt: Magics.MagicTables, s: PosState)
    reads root, root.bb, root.occ, root.board, root.kingSq
    reads atk, atk.pawn, atk.knight, atk.king, mt, mt.rookInfo, mt.bishopInfo, mt.rookTable, mt.bishopTable
  {
    root.Ready() && root.State() == s && Tables(atk, mt)
  }

  /** The loop over the workers; each worker's sum is its slot, in thread order. */
  method FillSlots(root: Position, ml: seq<Move>, d: nat, threads: nat,
                   atk: LeaperTables, mt: Magics.MagicTables, ghost s: PosState, ghost counts: seq<nat>, ghost sums: seq<nat>)
    returns (slots: seq<nat>)
    requires RootAt(root, atk, mt, s)
    requires Dealt(s, ml, d, threads, counts, sums)
    ensures slots == sums
  {
    slots := [];
    var t := 0;
    while t < threads
      invariant 0 <= t <= threads && slots == sums[..t]
      invariant RootAt(root, atk, mt, s)
    {
      var sum := Worker(root, ml, t, d, threads, atk, mt, s, counts, sums);
      SliceStep(sums, t);
      slots := slots + [sum];
      t := t + 1;
    }
    assert sums[..threads] == sums;
  }

  /** Taking one more element of `xs` appends it. */
  lemma SliceStep(xs: seq<nat>, t: nat)
    requires t < |xs|
    ensures xs[..t + 1] == xs[..t] + [xs[t]]
  {
  }

  /** The final loop of `perft_root_mt`: the partial sums added up. */
  method SumPartials(partial: array<nat>) returns (total: nat)
    ensures total == Total(partial[..])
  {
    total := 0;
    var k := 0;
    while k < partial.Length
      invariant 0 <= k <= partial.Length
      invariant total == Total(partial[..k])
    {
      assert partial[..k + 1][..k] == partial[..k];
      total := total + partial[k];
      k := k + 1;
    }
    assert partial[..k] == partial[..];
  }

  /** `perft_root_mt(root, depth, threads)`, corrected at depth 0 (see Findings): `perft` on
   *  a copy of the root with one thread or at depth 0; otherwise the root moves dealt out to
   *  the workers and their partial sums added up.
   *  Either way the total is `perft(root, depth)`, and `root` is left as it was. */
  method PerftRootMt(root: Position, depth: nat, threads: int, atk: LeaperTables, mt: Magics.MagicTables)
    returns (total: nat)
    requires root.Ready() && Playable(root.State()) && Tables(atk, mt)
    ensures total == PerftSpec.PerftRootMt(old(root.State()), depth, threads)
    ensures total == Nodes(old(root.State()), depth)
  {
    if threads <= 1 || depth == 0 {
      total := PerftOnCopy(root, depth, atk, mt);
    } else {
      var d: nat := depth - 1;
      total := PerftSplit(root, d, threads, atk, mt);
      SplitTotal(old(root.State()), depth, d, threads, total);
    }
  }

  /** The single-thread branch: `perft` on a copy of the root. */
  method PerftOnCopy(root: Position, depth: nat, atk: LeaperTables, mt: Magics.MagicTables) returns (total: nat)
    requires root.Ready() && Playable(root.State()) && Tables(atk, mt)
    ensures total == Nodes(old(root.State()), depth)
  {
    var p := Fork(root, atk, mt, root.State());
    total := Perft(p, depth, atk, mt);
  }

  /** The threaded branch (`d` is `depth - 1`): the root moves generated on a copy, dealt out
   *  to the workers, and the partial sums added up. */
  method PerftSplit(root: Position, d: nat, threads: nat, atk: LeaperTables, mt: Magics.MagicTables) returns (total: nat)
    requires root.Ready() && Playable(root.State()) && Tables(atk, mt) && threads > 1
    ensures total == Total(Partials(ChildCounts(old(root.State()), GenSpec(old(root.State())), d), threads))
  {
    ghost var s := root.State();
    var tmp := new Position.Copy(root);
    var ml := Generate(tmp, atk, mt);
    var partial := RunWorkers(root, ml, d, threads, atk, mt);
    total := SumPartials(partial);
  }
}
