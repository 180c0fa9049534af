/** The Zobrist keys of zobrist.cpp: 12 x 64 piece-square keys, one side-to-move key, 16
 *  castling keys and 9 en-passant keys (files a..h and "none"), drawn in that order from
 *  `splitmix64` started at 123456789. tt.cpp fills its own private copy the same way. */
module Zobrist {
  import opened Words

  const SEED: U64 := 123456789

  /** Positions of the keys in the order they are drawn. */
  const SIDE_DRAW: nat := 768
  const CASTLE_DRAW: nat := 769
  const EP_DRAW: nat := 785

  /** The generator state after `n` draws from `seed`: `n` golden-gamma steps, modulo 2^64. */
  function Advance(seed: U64, n: nat): U64
  {
    (seed + n * GOLDEN_GAMMA) % TWO64
  }

  /** The value of draw number `n` (from 0). */
  function Draw(seed: U64, n: nat): U64
    decreases n
  {
    if n == 0 then SplitMix64(seed).1 else Draw(Advance(seed, 1), n - 1)
  }

  /** Stepping the state `a` times and then `b` times steps it `a + b` times. */
  lemma AdvanceAdd(seed: U64, a: nat, b: nat)
    ensures Advance(Advance(seed, a), b) == Advance(seed, a + b)
  {
    ModThenAdd(seed + a * GOLDEN_GAMMA, b * GOLDEN_GAMMA);
    assert seed + a * GOLDEN_GAMMA + b * GOLDEN_GAMMA == seed + (a + b) * GOLDEN_GAMMA;
  }

  /** Draw `n + m` is draw `m` of the generator `n` steps on. */
  lemma {:induction false} DrawFromState(seed: U64, n: nat, m: nat)
    ensures Draw(seed, n + m) == Draw(Advance(seed, n), m)
    decreases n
  {
    if n == 0 {
      assert Advance(seed, 0) == seed;
    } else {
      var next := Advance(seed, 1);
      assert Draw(seed, n + m) == Draw(next, n - 1 + m);
      DrawFromState(next, n - 1, m);
      AdvanceAdd(seed, 1, n - 1);
    }
  }

  lemma ModThenAdd(a: int, b: int)
    ensures (a % TWO64 + b) % TWO64 == (a + b) % TWO64
  {
    var q := a / TWO64;
    assert a == q * TWO64 + a % TWO64;
    assert a + b == (a % TWO64 + b) + q * TWO64;
  }

  /** The number of keys drawn. */
  const KEY_COUNT: nat := 794

  /** The contents of the key tables as values. */
  datatype Keys = Keys(piece: seq<seq<U64>>, side: U64, castle: seq<U64>, ep: seq<U64>)
  {
    predicate Sized()
    {
      |piece| == 12 && (forall c :: 0 <= c < 12 ==> |piece[c]| == 64) && |castle| == 16 && |ep| == 9
    }
  }

  /** The key tables (`ZP`, `ZSide`, `ZCastle`, `ZEP`) and the `inited` flag that guards their
   *  one-time fill. */
  class ZobristTables {
    const piece: array2<U64>
    var side: U64
    const castle: array<U64>
    const ep: array<U64>
    var inited: bool
    /** The generator's starting state, 123456789. */
    const start: U64

    ghost predicate Shaped()
      reads this
    {
      piece.Length0 == 12 && piece.Length1 == 64 && castle.Length == 16 && ep.Length == 9
      && castle != ep
    }

    /** The key in draw position `n`: `ZP` row by row, then `ZSide`, `ZCastle` and `ZEP`. */
    ghost function KeyAt(n: nat): U64
      reads this, piece, castle, ep
      requires Shaped() && n < KEY_COUNT
    {
      if n < SIDE_DRAW then piece[n / 64, n % 64]
      else if n == SIDE_DRAW then side
      else if n < EP_DRAW then castle[n - CASTLE_DRAW]
      else ep[n - EP_DRAW]
    }

    /** The first `rows` rows of `ZP` are filled: `ZP[c][sq]` holds draw number `64 * c + sq`. */
    ghost predicate RowsFilled(rows: nat)
      reads piece
      requires rows <= piece.Length0 && piece.Length1 == 64
    {
      forall c, sq :: 0 <= c < rows && 0 <= sq < 64 ==> piece[c, sq] == Draw(start, 64 * c + sq)
    }

    ghost predicate PiecesFilled()
      reads piece
    {
      piece.Length0 == 12 && piece.Length1 == 64 && RowsFilled(12)
    }

    /** Every table holds its draws: `ZP` row by row, then `ZSide`, `ZCastle` and `ZEP`. */
    ghost predicate Filled()
      reads this, piece, castle, ep
    {
      PiecesFilled() && side == Draw(start, SIDE_DRAW)
      && HoldsDraws(castle, start, CASTLE_DRAW) && HoldsDraws(ep, start, EP_DRAW)
    }

    /** Key number `n` in draw order is draw number `n`. */
    lemma KeyIsDraw(n: nat)
      requires Shaped() && Filled() && n < KEY_COUNT
      ensures KeyAt(n) == Draw(start, n)
    {
      if n < SIDE_DRAW {
        var c, sq := n / 64, n % 64;
        assert n == 64 * c + sq;
        assert piece[c, sq] == Draw(start, 64 * c + sq);
      } else if n == SIDE_DRAW {
      } else if n < EP_DRAW {
        assert castle[n - CASTLE_DRAW] == Draw(start, CASTLE_DRAW + (n - CASTLE_DRAW));
      } else {
        assert ep[n - EP_DRAW] == Draw(start, EP_DRAW + (n - EP_DRAW));
      }
    }

    ghost function Contents(): (k: Keys)
      reads this, piece, castle, ep
      requires Shaped()
      ensures k.Sized()
    {
      Keys(seq(12, c requires 0 <= c < 12 reads piece => seq(64, sq requires 0 <= sq < 64 reads piece => piece[c, sq])),
        side, castle[..], ep[..])
    }

    /** Once `inited` is set the tables are filled. */
    ghost predicate Valid()
      reads this, piece, castle, ep
    {
      Shaped() && (inited ==> Filled())
    }

    /** Static storage: zero-filled tables, not yet initialised. */
    constructor ()
      ensures Valid() && !inited && start == SEED
      ensures fresh(piece) && fresh(castle) && fresh(ep)
    {
      piece := new U64[12, 64]((_, _) => 0);
      side := 0;
      castle := new U64[16](_ => 0);
      ep := new U64[9](_ => 0);
      inited := false;
      start := SEED;
    }

    /** `zobrist_init` (and the guarded block at the head of `zobrist_key_slow`): fills the
     *  tables once; a second call changes nothing. */
    method Init()
      requires Valid()
      modifies this, piece, castle, ep
      ensures Valid() && inited && Filled()
      ensures old(inited) ==> unchanged(this, piece, castle, ep)
    {
      if inited {
        return;
      }
      var seed := FillPieces();
      seed, side := DrawNext(start, seed, SIDE_DRAW);
      seed := FillRun(castle, start, CASTLE_DRAW, seed);
      seed := FillRun(ep, start, EP_DRAW, seed);
      inited := true;
    }

    /** The 768 draws of `ZP`, row by row. */
    method FillPieces() returns (seed: U64)
      requires Shaped()
      modifies piece
      ensures PiecesFilled() && seed == Advance(start, SIDE_DRAW)
    {
      seed := start;
      var c := 0;
      while c < 12
        invariant 0 <= c <= 12 && seed == Advance(start, 64 * c) && RowsFilled(c)
      {
        seed := FillRow(c, seed);
        c := c + 1;
      }
    }

    /** The 64 draws of `ZP[c]`, after those of the rows before it. */
    method FillRow(c: nat, seed0: U64) returns (seed: U64)
      requires Shaped() && c < 12 && seed0 == Advance(start, 64 * c) && RowsFilled(c)
      modifies piece
      ensures seed == Advance(start, 64 * (c + 1)) && RowsFilled(c + 1)
    {
      seed := seed0;
      var sq := 0;
      while sq < 64
        invariant 0 <= sq <= 64 && seed == Advance(start, 64 * c + sq) && RowsFilled(c)
        invariant forall s :: 0 <= s < sq ==> piece[c, s] == Draw(start, 64 * c + s)
      {
        var v;
        seed, v := DrawNext(start, seed, 64 * c + sq);
        piece[c, sq] := v;
        sq := sq + 1;
      }
    }
  }

  /** `a` holds the draws numbered `first` to `first + a.Length - 1`. */
  ghost predicate HoldsDraws(a: array<U64>, start: U64, first: nat)
    reads a
  {
    forall i :: 0 <= i < a.Length ==> a[i] == Draw(start, first + i)
  }

  /** One call of `splitmix64(seed)` on the state after `n` draws from `start`. */
  method DrawNext(start: U64, seed: U64, ghost n: nat) returns (next: U64, v: U64)
    requires seed == Advance(start, n)
    ensures next == Advance(start, n + 1) && v == Draw(start, n)
  {
    var r := SplitMix64(seed);
    AdvanceAdd(start, n, 1);
    DrawFromState(start, n, 0);
    next, v := r.0, r.1;
  }

  /** `a.Length` consecutive draws from `start`, beginning with draw number `first`. */
  method FillRun(a: array<U64>, start: U64, first: nat, seed0: U64) returns (seed: U64)
    requires seed0 == Advance(start, first)
    modifies a
    ensures seed == Advance(start, first + a.Length)
    ensures HoldsDraws(a, start, first)
  {
    seed := seed0;
    var i := 0;
    while i < a.Length
      invariant 0 <= i <= a.Length && seed == Advance(start, first + i)
      invariant forall j :: 0 <= j < i ==> a[j] == Draw(start, first + j)
    {
      var v;
      seed, v := DrawNext(start, seed, first + i);
      a[i] := v;
      i := i + 1;
    }
  }

  /** The tables of zobrist.cpp and the private ones of tt.cpp, both started from the same
   *  state, hold the same keys. */
  lemma SameTables(g: ZobristTables, t: ZobristTables)
    requires g.Shaped() && g.Filled() && t.Shaped() && t.Filled() && g.start == t.start
    ensures g.Contents() == t.Contents()
  {
    var a, b := g.Contents(), t.Contents();
    forall c | 0 <= c < 12
      ensures a.piece[c] == b.piece[c]
    {
      assert forall sq :: 0 <= sq < 64 ==> a.piece[c][sq] == b.piece[c][sq];
    }
    assert a.castle == b.castle;
    assert a.ep == b.ep;
  }
}
