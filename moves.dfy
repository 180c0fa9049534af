/** Packed moves (move.h): a `uint32_t` laid out, from bit 0 upward, as
 *  from:6 | to:6 | piece:3 | captured:3 | promotion:3 | flags:8. */
module Moves {
  import opened Types

  type Move = m: int | 0 <= m < 0x1_0000_0000

  /** A `uint8_t`. */
  type Byte = b: int | 0 <= b < 256

  const MF_NONE: Byte := 0
  const MF_EP: Byte := 1
  const MF_CASTLE: Byte := 2
  const MF_DBLPAWN: Byte := 4
  const MF_PROMO: Byte := 8

  /** `flags & f` is non-zero, for one of the single-bit flags above. */
  predicate HasFlag(flags: int, f: int)
    requires f == MF_EP || f == MF_CASTLE || f == MF_DBLPAWN || f == MF_PROMO
  {
    (flags / f) % 2 == 1
  }

  /** The four flags are distinct single bits: each flag tests positive on itself and negative on
   *  the other three. */
  lemma FlagsAreDistinctBits(f: int, g: int)
    requires f == MF_EP || f == MF_CASTLE || f == MF_DBLPAWN || f == MF_PROMO
    requires g == MF_EP || g == MF_CASTLE || g == MF_DBLPAWN || g == MF_PROMO
    ensures HasFlag(f, g) <==> f == g
    ensures f == 1 || f == 2 || f == 4 || f == 8
  {
  }

  // Shifting right by k bits and masking with 2^w - 1 is `(m / 2^k) % 2^w` on a non-negative value,
  // and `x & 63` is `x % 64` on every two's-complement integer.

  function MoveFrom(m: Move): (r: int) ensures 0 <= r < 64 { m % 64 }
  function MoveTo(m: Move): (r: int) ensures 0 <= r < 64 { (m / 64) % 64 }
  function MovePiece(m: Move): (r: int) ensures 0 <= r < 8 { (m / 4096) % 8 }
  function MoveCap(m: Move): (r: int) ensures 0 <= r < 8 { (m / 32768) % 8 }
  function MovePromo(m: Move): (r: int) ensures 0 <= r < 8 { (m / 262144) % 8 }
  function MoveFlags(m: Move): (r: Byte) { (m / 2097152) % 256 }

  /** `make_move`: every accessor gives back its own field, masked to the field's width,
   *  and the three top bits stay clear. */
  function MakeMove(from: int, to: int, p: int, cap: int, promo: int, flags: Byte): (m: Move)
    ensures MoveFrom(m) == from % 64
    ensures MoveTo(m) == to % 64
    ensures MovePiece(m) == p % 8
    ensures MoveCap(m) == cap % 8
    ensures MovePromo(m) == promo % 8
    ensures MoveFlags(m) == flags
    ensures m < 0x2000_0000
  {
    var hi := promo % 8 + 8 * flags;
    var m := Pack(from % 64, 64, Pack(to % 64, 64, Pack(p % 8, 8, Pack(cap % 8, 8, hi))));
    Unpack(from % 64, to % 64, p % 8, cap % 8, promo % 8, flags);
    m
  }

  /** `lo` in the low digit of base `k`, `hi` above it. */
  function Pack(lo: int, k: int, hi: int): int
  {
    lo + k * hi
  }

  lemma PackDigits(lo: int, k: int, hi: int)
    requires 0 <= lo < k && (k == 8 || k == 64)
    ensures Pack(lo, k, hi) % k == lo
    ensures Pack(lo, k, hi) / k == hi
  {
    if k == 8 {
      assert Pack(lo, k, hi) == lo + 8 * hi;
    } else {
      assert Pack(lo, k, hi) == lo + 64 * hi;
    }
  }

  lemma ShiftShift(x: int)
    requires x >= 0
    ensures x / 64 / 64 == x / 4096
    ensures x / 4096 / 8 == x / 32768
    ensures x / 32768 / 8 == x / 262144
    ensures x / 262144 / 8 == x / 2097152
  {
  }

  lemma Unpack(f: int, t: int, p: int, c: int, pr: int, fl: Byte)
    requires 0 <= f < 64 && 0 <= t < 64 && 0 <= p < 8 && 0 <= c < 8 && 0 <= pr < 8
    ensures var m := Pack(f, 64, Pack(t, 64, Pack(p, 8, Pack(c, 8, pr + 8 * fl))));
      0 <= m < 0x2000_0000 &&
      MoveFrom(m) == f && MoveTo(m) == t && MovePiece(m) == p && MoveCap(m) == c &&
      MovePromo(m) == pr && MoveFlags(m) == fl
  {
    var h4 := pr + 8 * fl;
    var h3 := Pack(c, 8, h4);
    var h2 := Pack(p, 8, h3);
    var h1 := Pack(t, 64, h2);
    var m := Pack(f, 64, h1);
    PackDigits(f, 64, h1);
    PackDigits(t, 64, h2);
    PackDigits(p, 8, h3);
    PackDigits(c, 8, h4);
    PackDigits(pr, 8, fl);
    ShiftShift(m);
    assert m / 4096 == h2;
    assert m / 32768 == h3;
    assert m / 262144 == h4;
    assert m / 2097152 == fl;
  }

  lemma ModSmall(x: int, k: int)
    requires 0 <= x < k
    ensures x % k == x
  {
  }

  lemma Decompose(m: Move)
    requires m < 0x2000_0000
    ensures m == Pack(MoveFrom(m), 64, Pack(MoveTo(m), 64, Pack(MovePiece(m), 8,
                  Pack(MoveCap(m), 8, MovePromo(m) + 8 * MoveFlags(m)))))
  {
    ShiftShift(m);
    var h1 := m / 64;
    var h2 := m / 4096;
    var h3 := m / 32768;
    var h4 := m / 262144;
    assert m == MoveFrom(m) + 64 * h1;
    assert h1 == MoveTo(m) + 64 * h2;
    assert h2 == MovePiece(m) + 8 * h3;
    assert h3 == MoveCap(m) + 8 * h4;
    assert h4 == MovePromo(m) + 8 * MoveFlags(m);
  }

  /** Unpacking then re-packing gives the move back whenever its three top bits are clear. */
  lemma RepackMove(m: Move)
    requires m < 0x2000_0000
    ensures MakeMove(MoveFrom(m), MoveTo(m), MovePiece(m), MoveCap(m), MovePromo(m), MoveFlags(m)) == m
  {
    Decompose(m);
    var f, t, pc, c, pr, fl := MoveFrom(m), MoveTo(m), MovePiece(m), MoveCap(m), MovePromo(m), MoveFlags(m);
    var r := MakeMove(f, t, pc, c, pr, fl);
    ModSmall(f, 64);
    ModSmall(t, 64);
    ModSmall(pc, 8);
    ModSmall(c, 8);
    ModSmall(pr, 8);
    Decompose(r);
  }

  /** Packing is injective: two moves agree exactly when all six fields agree. */
  lemma MoveFieldsDetermineMove(m1: Move, m2: Move)
    requires m1 < 0x2000_0000 && m2 < 0x2000_0000
    ensures m1 == m2 <==>
      MoveFrom(m1) == MoveFrom(m2) && MoveTo(m1) == MoveTo(m2) && MovePiece(m1) == MovePiece(m2) &&
      MoveCap(m1) == MoveCap(m2) && MovePromo(m1) == MovePromo(m2) && MoveFlags(m1) == MoveFlags(m2)
  {
    RepackMove(m1);
    RepackMove(m2);
  }

  /** A move between two different squares is never the null move 0. */
  lemma MoveNonZero(from: Square, to: Square, p: int, cap: int, promo: int, flags: Byte)
    requires from != to
    ensures MakeMove(from, to, p, cap, promo, flags) != 0
  {
    var m := MakeMove(from, to, p, cap, promo, flags);
    assert MoveFrom(m) == from && MoveTo(m) == to;
  }
}
