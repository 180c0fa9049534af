/** Bitboards (bitboard.h): a `U64` whose bit `s` stands for square `s` (a1 = 0, h8 = 63).
 *  Every helper is specified through `Squares`, the set of squares whose bit is set. */
module Bitboards {
  import opened Types
  import opened Words

  type Bitboard = U64

  ghost function Squares(b: Bitboard): set<Square>
  {
    set s: Square | Has(b, s)
  }

  /** `sq_bb`: `1ULL << sq`, the board holding only `sq`. */
  function SqBB(sq: Square): (r: Bitboard)
    ensures Squares(r) == {sq}
  {
    Pow2Mono(sq + 1, 64);
    Pow2At64();
    SquaresSqBB(sq);
    Pow2(sq)
  }

  lemma SquaresSqBB(sq: Square)
    ensures forall s: Square :: Has(Pow2(sq), s) <==> s == sq
  {
    forall s: Square ensures Has(Pow2(sq), s) <==> s == sq {
      HasPow2(sq, s);
    }
  }

  // ---------------------------------------------------------------- set operations

  /** `a | b`. */
  function Union(a: Bitboard, b: Bitboard): (r: Bitboard)
    ensures Squares(r) == Squares(a) + Squares(b)
  {
    Pow2At64();
    OrBound(a, b, 64);
    forall s: Square ensures Has(Or(a, b), s) <==> Has(a, s) || Has(b, s) {
      HasOr(a, b, s);
    }
    Or(a, b)
  }

  /** `a & b`. */
  function Inter(a: Bitboard, b: Bitboard): (r: Bitboard)
    ensures Squares(r) == Squares(a) * Squares(b)
  {
    forall s: Square ensures Has(And(a, b), s) <==> Has(a, s) && Has(b, s) {
      HasAnd(a, b, s);
    }
    And(a, b)
  }

  /** `a ^ b`. */
  function Toggle(a: Bitboard, b: Bitboard): (r: Bitboard)
    ensures Squares(r) == (Squares(a) - Squares(b)) + (Squares(b) - Squares(a))
  {
    Pow2At64();
    XorBound(a, b, 64);
    forall s: Square ensures Has(Xor(a, b), s) <==> Has(a, s) != Has(b, s) {
      HasXor(a, b, s);
    }
    Xor(a, b)
  }

  /** `~a`. */
  function Complement(a: Bitboard): (r: Bitboard)
    ensures forall s: Square :: s in Squares(r) <==> s !in Squares(a)
  {
    forall s: Square ensures Has(Not(a), s) <==> !Has(a, s) {
      HasNot(a, s);
    }
    Not(a)
  }

  /** `a & ~b`: the squares of `a` not in `b`. */
  function Minus(a: Bitboard, b: Bitboard): (r: Bitboard)
    ensures Squares(r) == Squares(a) - Squares(b)
  {
    Inter(a, Complement(b))
  }

  /** `b |= sq_bb(s)`: sets one square. */
  method SetSquare(b: Bitboard, s: Square) returns (r: Bitboard)
    ensures Squares(r) == Squares(b) + {s}
  {
    r := Union(b, SqBB(s));
  }

  /** `(b & sq_bb(s)) != 0`: whether square `s` is set. */
  method TestSquare(b: Bitboard, s: Square) returns (hit: bool)
    ensures hit <==> s in Squares(b)
  {
    var x := Inter(b, SqBB(s));
    NonZeroSquares(x);
    assert s in Squares(b) <==> s in Squares(x);
    hit := x != 0;
  }

  /** `(a & b) == 0`: whether the boards share no square. */
  method Disjoint(a: Bitboard, b: Bitboard) returns (none: bool)
    ensures none <==> Squares(a) * Squares(b) == {}
  {
    var x := Inter(a, b);
    NonZeroSquares(x);
    none := x == 0;
  }

  lemma SquaresZero()
    ensures Squares(0) == {}
  {
    forall s: Square ensures !Has(0, s) {
      HasZero(s);
    }
  }

  /** Boards with the same squares are the same board. */
  lemma SquaresInjective(a: Bitboard, b: Bitboard)
    requires Squares(a) == Squares(b)
    ensures a == b
  {
    Pow2At64();
    forall i | 0 <= i < 64
      ensures Has(a, i) <==> Has(b, i)
    {
      assert Has(a, i) <==> i in Squares(a);
    }
    BitsDetermine(a, b, 64);
  }

  lemma NonZeroSquares(x: Bitboard)
    ensures x != 0 <==> Squares(x) != {}
  {
    if x != 0 {
      CtzSquare(x);
      assert Ctz(x) in Squares(x);
    } else {
      SquaresZero();
    }
  }

  // ---------------------------------------------------------------- ctz / pop_lsb

  /** `ctz64` (defined only for a non-zero argument): the number of trailing zero bits. */
  function Ctz(x: nat): (r: nat)
    requires x != 0
    ensures Has(x, r)
    decreases x
  {
    if x % 2 == 1 then 0 else 1 + Ctz(x / 2)
  }

  lemma {:induction false} CtzLowest(x: nat, i: nat)
    requires x != 0 && i < Ctz(x)
    ensures !Has(x, i)
    decreases x
  {
    if i > 0 {
      CtzLowest(x / 2, i - 1);
    }
  }

  lemma CtzSquare(x: Bitboard)
    requires x != 0
    ensures Ctz(x) < 64
  {
    Pow2At64();
    if Ctz(x) >= 64 {
      HasHigh(x, 64, Ctz(x));
    }
  }

  /** `x - 1` flips the trailing zeros and the lowest set bit of `x`. */
  lemma {:induction false} HasPred(x: nat, i: nat)
    requires x != 0
    ensures Has(x - 1, i) <==> i < Ctz(x) || (i > Ctz(x) && Has(x, i))
    decreases x
  {
    if x % 2 == 1 {
      HasPredOdd(x, i);
    } else {
      HasPredEven(x, i);
      if i > 0 {
        HasPred(x / 2, i - 1);
      }
    }
  }

  lemma HasPredOdd(x: nat, i: nat)
    requires x % 2 == 1
    ensures Ctz(x) == 0
    ensures Has(x - 1, i) <==> i > 0 && Has(x, i)
  {
    if i > 0 {
      assert (x - 1) / 2 == x / 2;
      assert Has(x - 1, i) == Has(x / 2, i - 1) == Has(x, i);
    } else {
      assert (x - 1) % 2 == 0;
    }
  }

  lemma HasPredEven(x: nat, i: nat)
    requires x % 2 == 0 && x != 0
    ensures x / 2 != 0 && Ctz(x) == 1 + Ctz(x / 2)
    ensures i == 0 ==> Has(x - 1, i) && !Has(x, i)
    ensures i > 0 ==> Has(x - 1, i) == Has(x / 2 - 1, i - 1) && Has(x, i) == Has(x / 2, i - 1)
  {
    if i == 0 {
      assert (x - 1) % 2 == 1;
    } else {
      assert (x - 1) / 2 == x / 2 - 1;
    }
  }

  /** `x & (x - 1)` clears exactly the lowest set bit. */
  lemma HasClearLowest(x: nat, i: nat)
    requires x != 0
    ensures Has(And(x, x - 1), i) <==> Has(x, i) && i != Ctz(x)
  {
    HasAnd(x, x - 1, i);
    HasPred(x, i);
    if i < Ctz(x) {
      CtzLowest(x, i);
    }
  }

  /** The lowest set square of a non-empty board. */
  function Lowest(x: Bitboard): (r: Square)
    requires x != 0
    ensures r in Squares(x)
    ensures forall s :: s in Squares(x) ==> r <= s
  {
    CtzSquare(x);
    forall s: Square | s < Ctz(x)
      ensures !Has(x, s)
    {
      CtzLowest(x, s);
    }
    Ctz(x)
  }

  /** `x & (x - 1)`. */
  function ClearLowest(x: Bitboard): (r: Bitboard)
    requires x != 0
    ensures Squares(r) == Squares(x) - {Lowest(x)}
  {
    forall s: Square ensures Has(And(x, x - 1), s) <==> Has(x, s) && s != Ctz(x) {
      HasClearLowest(x, s);
    }
    And(x, x - 1)
  }

  /** The squares of `b` in the order repeated `pop_lsb` visits them. */
  ghost function SquareList(b: Bitboard): seq<Square>
    decreases |Squares(b)|
  {
    if b == 0 then
      []
    else
      [Lowest(b)] + SquareList(ClearLowest(b))
  }

  /** The list holds each square of the board, in increasing order. */
  lemma {:induction false} SquareListSpec(b: Bitboard)
    ensures forall k :: 0 <= k < |SquareList(b)| ==> SquareList(b)[k] in Squares(b)
    ensures forall s :: s in Squares(b) ==> s in SquareList(b)
    ensures forall k, l :: 0 <= k < l < |SquareList(b)| ==> SquareList(b)[k] < SquareList(b)[l]
    decreases |Squares(b)|
  {
    if b == 0 {
      SquaresZero();
    } else {
      SquareListSpec(ClearLowest(b));
    }
  }

  /** The list holds as many squares as the board. */
  lemma {:induction false} SquareListLength(b: Bitboard)
    ensures |SquareList(b)| == |Squares(b)|
    decreases |Squares(b)|
  {
    if b == 0 {
      SquaresZero();
    } else {
      SquareListLength(ClearLowest(b));
    }
  }

  /** `pop_lsb`: returns the lowest set square and clears it. */
  method PopLsb(bb: Bitboard) returns (sq: Square, rest: Bitboard)
    requires bb != 0
    ensures sq == Lowest(bb) && rest == ClearLowest(bb)
    ensures SquareList(bb) == [sq] + SquareList(rest)
    ensures Popcount(rest) == Popcount(bb) - 1
  {
    sq := Lowest(bb);
    rest := ClearLowest(bb);
  }

  /** A `pop_lsb` step moves the lowest square still to visit to the end of those visited. */
  lemma PopStep(done: seq<Square>, sq: Square, b: Bitboard, rest: Bitboard, all: seq<Square>)
    requires done + SquareList(b) == all
    requires SquareList(b) == [sq] + SquareList(rest)
    ensures (done + [sq]) + SquareList(rest) == all
  {
  }

  /** When the board is empty every square has been visited. */
  lemma PopDone(done: seq<Square>, b: Bitboard, all: seq<Square>)
    requires done + SquareList(b) == all && b == 0
    ensures done == all
  {
  }

  /** `x & (1 << b)` is non-zero exactly when bit `b` of `x` is set. */
  lemma BitTest(x: nat, b: nat)
    ensures And(x, Pow2(b)) != 0 <==> Has(x, b)
  {
    HasAnd(x, Pow2(b), b);
    HasPow2(b, b);
    if And(x, Pow2(b)) != 0 {
      var c := Ctz(And(x, Pow2(b)));
      HasAnd(x, Pow2(b), c);
      HasPow2(b, c);
    } else {
      HasZero(b);
    }
  }

  // ---------------------------------------------------------------- popcount

  ghost function SquaresFrom(x: Bitboard, i: int): set<Square>
  {
    set s: Square | i <= s && s in Squares(x)
  }

  function CountFrom(x: Bitboard, i: int): (r: nat)
    requires 0 <= i <= 64
    ensures r == |SquaresFrom(x, i)|
    decreases 64 - i
  {
    if i == 64 then
      assert SquaresFrom(x, i) == {};
      0
    else
      var rest := CountFrom(x, i + 1);
      if Has(x, i) then
        assert SquaresFrom(x, i) == SquaresFrom(x, i + 1) + {i};
        rest + 1
      else
        assert SquaresFrom(x, i) == SquaresFrom(x, i + 1);
        rest
  }

  /** `popcount64`: the number of set squares. */
  function Popcount(x: Bitboard): (r: nat)
    ensures r == |Squares(x)|
  {
    assert SquaresFrom(x, 0) == Squares(x);
    CountFrom(x, 0)
  }

  /** `popcount64` called from a loop: the number of set squares. */
  method CountBits(x: Bitboard) returns (n: nat)
    ensures n == |Squares(x)|
  {
    n := Popcount(x);
  }

  /** `popcount64(a & b)` called from a loop: the number of squares the boards share. */
  method CountCommon(a: Bitboard, b: Bitboard) returns (n: nat)
    ensures n == |Squares(a) * Squares(b)|
  {
    n := Popcount(Inter(a, b));
  }

  // ---------------------------------------------------------------- file and rank

  /** `file_of`: `sq & 7`, which on two's-complement integers is the Euclidean remainder. */
  function FileOf(sq: int): (f: int)
    ensures 0 <= f < 8
    ensures f == sq - 8 * RankOf(sq)
  {
    sq % 8
  }

  /** `rank_of`: `sq >> 3`, an arithmetic shift, i.e. division rounding toward minus infinity. */
  function RankOf(sq: int): (r: int)
    ensures 8 * r <= sq < 8 * r + 8
  {
    sq / 8
  }

  lemma FileRankOfSquare(sq: Square)
    ensures 0 <= RankOf(sq) < 8
    ensures sq == 8 * RankOf(sq) + FileOf(sq)
  {
  }
}
