/** Unsigned 64-bit words (`U64`) as integers in [0, 2^64), with the bitwise operators of C++
 *  defined binary digit by binary digit. `Has(x, i)` reads bit `i`. */
module Words {
  const TWO64: int := 0x1_0000_0000_0000_0000

  type U64 = x: int | 0 <= x < TWO64

  /** 2^n. */
  function Pow2(n: nat): (r: nat)
    ensures r >= 1
  {
    if n == 0 then 1 else 2 * Pow2(n - 1)
  }

  lemma {:induction false} Pow2Add(a: nat, b: nat)
    ensures Pow2(a + b) == Pow2(a) * Pow2(b)
    decreases a
  {
    if a > 0 {
      Pow2Add(a - 1, b);
    }
  }

  lemma {:induction false} Pow2Mono(a: nat, b: nat)
    requires a <= b
    ensures Pow2(a) <= Pow2(b)
    decreases b
  {
    if a < b {
      Pow2Mono(a, b - 1);
    }
  }

  lemma {:induction false} Pow2At64()
    ensures Pow2(64) == TWO64
  {
    assert Pow2(4) == 16;
    Pow2Add(4, 4);
    assert Pow2(8) == 0x100;
    Pow2Add(8, 8);
    assert Pow2(16) == 0x1_0000;
    Pow2Add(16, 16);
    assert Pow2(32) == 0x1_0000_0000;
    Pow2Add(32, 32);
  }

  /** Bit `i` of `x`: the `i`-th binary digit. */
  predicate Has(x: nat, i: nat)
    decreases i
  {
    if i == 0 then x % 2 == 1 else Has(x / 2, i - 1)
  }

  // ---------------------------------------------------------------- bitwise operators

  /** `a & b`. */
  function And(a: nat, b: nat): (r: nat)
    ensures r <= a && r <= b
    decreases a
  {
    if a == 0 || b == 0 then 0
    else 2 * And(a / 2, b / 2) + (if a % 2 == 1 && b % 2 == 1 then 1 else 0)
  }

  /** `a | b`. */
  function Or(a: nat, b: nat): (r: nat)
    decreases a + b
  {
    if a == 0 then b
    else if b == 0 then a
    else 2 * Or(a / 2, b / 2) + (if a % 2 == 1 || b % 2 == 1 then 1 else 0)
  }

  /** `a ^ b`. */
  function Xor(a: nat, b: nat): (r: nat)
    decreases a + b
  {
    if a == 0 then b
    else if b == 0 then a
    else 2 * Xor(a / 2, b / 2) + (if a % 2 != b % 2 then 1 else 0)
  }

  /** `~a` on 64 bits. */
  function Not(a: U64): (r: U64)
  {
    TWO64 - 1 - a
  }

  /** `a * b` on 64 bits: the product modulo 2^64. */
  function MulLow(a: U64, b: U64): (r: U64)
  {
    (a * b) % TWO64
  }

  /** `a >> k` for an unsigned word: `a / 2^k`. */
  function Shr(a: U64, k: nat): (r: U64)
    ensures r <= a
  {
    var p := Pow2(k);
    DivNoMore(a, p);
    a / p
  }

  lemma DivNoMore(a: nat, p: nat)
    requires p >= 1
    ensures 0 <= a / p <= a
  {
  }

  // ---------------------------------------------------------------- bits of the operators

  lemma {:induction false} HasZero(i: nat)
    ensures !Has(0, i)
    decreases i
  {
    if i > 0 {
      HasZero(i - 1);
    }
  }

  lemma {:induction false} HasAnd(a: nat, b: nat, i: nat)
    ensures Has(And(a, b), i) <==> Has(a, i) && Has(b, i)
    decreases i
  {
    if a == 0 || b == 0 {
      HasZero(i);
    } else if i > 0 {
      HasAnd(a / 2, b / 2, i - 1);
    }
  }

  lemma {:induction false} HasOr(a: nat, b: nat, i: nat)
    ensures Has(Or(a, b), i) <==> Has(a, i) || Has(b, i)
    decreases i
  {
    if a == 0 {
      HasZero(i);
    } else if b == 0 {
      HasZero(i);
    } else if i > 0 {
      HasOr(a / 2, b / 2, i - 1);
    }
  }

  lemma {:induction false} HasXor(a: nat, b: nat, i: nat)
    ensures Has(Xor(a, b), i) <==> Has(a, i) != Has(b, i)
    decreases i
  {
    if a == 0 {
      HasZero(i);
    } else if b == 0 {
      HasZero(i);
    } else if i > 0 {
      HasXor(a / 2, b / 2, i - 1);
    }
  }

  /** No bit at or above `n` is set in a number below 2^n. */
  lemma {:induction false} HasHigh(x: nat, n: nat, i: nat)
    requires x < Pow2(n) && n <= i
    ensures !Has(x, i)
    decreases i
  {
    if n == 0 {
      assert x == 0;
      HasZero(i);
    } else {
      HasHigh(x / 2, n - 1, i - 1);
    }
  }

  /** `Pow2(n) - 1 - a` complements the low `n` bits of `a`. */
  lemma {:induction false} HasComplement(a: nat, n: nat, i: nat)
    requires a < Pow2(n)
    ensures Has(Pow2(n) - 1 - a, i) <==> i < n && !Has(a, i)
    decreases i
  {
    if n == 0 {
      HasZero(i);
    } else if i == 0 {
    } else {
      assert (Pow2(n) - 1 - a) / 2 == Pow2(n - 1) - 1 - a / 2;
      HasComplement(a / 2, n - 1, i - 1);
    }
  }

  lemma HasNot(a: U64, i: nat)
    ensures Has(Not(a), i) <==> i < 64 && !Has(a, i)
  {
    Pow2At64();
    HasComplement(a, 64, i);
  }

  lemma {:induction false} HasPow2(k: nat, i: nat)
    ensures Has(Pow2(k), i) <==> i == k
    decreases k
  {
    if k == 0 {
      if i > 0 {
        HasZero(i - 1);
      }
    } else if i > 0 {
      HasPow2(k - 1, i - 1);
    }
  }

  // ---------------------------------------------------------------- bounds

  lemma {:induction false} OrBound(a: nat, b: nat, n: nat)
    requires a < Pow2(n) && b < Pow2(n)
    ensures Or(a, b) < Pow2(n)
    decreases n
  {
    if a != 0 && b != 0 {
      OrBound(a / 2, b / 2, n - 1);
    }
  }

  lemma {:induction false} XorBound(a: nat, b: nat, n: nat)
    requires a < Pow2(n) && b < Pow2(n)
    ensures Xor(a, b) < Pow2(n)
    decreases n
  {
    if a != 0 && b != 0 {
      XorBound(a / 2, b / 2, n - 1);
    }
  }

  /** Numbers with the same bits are equal. */
  lemma {:induction false} BitsDetermine(a: nat, b: nat, n: nat)
    requires a < Pow2(n) && b < Pow2(n)
    requires forall i :: 0 <= i < n ==> (Has(a, i) <==> Has(b, i))
    ensures a == b
    decreases n
  {
    if n > 0 {
      assert Has(a, 0) <==> Has(b, 0);
      forall i | 0 <= i < n - 1
        ensures Has(a / 2, i) <==> Has(b / 2, i)
      {
        assert Has(a, i + 1) <==> Has(b, i + 1);
      }
      BitsDetermine(a / 2, b / 2, n - 1);
    }
  }

  /** Setting bit `m` above all bits of `x` keeps the bits of `x` and adds bit `m`. */
  lemma {:induction false} HasAddPow2(x: nat, m: nat, b: nat)
    requires x < Pow2(m)
    ensures Has(x + Pow2(m), b) <==> b == m || (b < m && Has(x, b))
    decreases m
  {
    if m == 0 {
      if b > 0 {
        HasZero(b - 1);
      }
    } else if b > 0 {
      assert (x + Pow2(m)) / 2 == x / 2 + Pow2(m - 1);
      HasAddPow2(x / 2, m - 1, b - 1);
    }
  }

  /** A word below `2^(n + k)` shifted right by `k` is below `2^n`. */
  lemma ShrBelow(a: U64, n: nat, k: nat)
    requires a < Pow2(n + k)
    ensures Shr(a, k) < Pow2(n)
  {
    Pow2Add(n, k);
    DivBelow(a, Pow2(k), Pow2(n));
  }

  lemma DivBelow(a: nat, p: nat, m: nat)
    requires p > 0 && a < m * p
    ensures a / p < m
  {
  }

  /** `a >> k` on a 64-bit word leaves at most `64 - k` significant bits. */
  lemma ShrBound(a: U64, k: nat)
    requires k <= 64
    ensures Shr(a, k) < Pow2(64 - k)
  {
    Pow2At64();
    ShrBelow(a, 64 - k, k);
  }

  // ---------------------------------------------------------------- algebra of xor

  /** `a ^ b` on two words is a word. */
  function Xor64(a: U64, b: U64): U64
  {
    Pow2At64();
    XorBound(a, b, 64);
    Xor(a, b)
  }

  lemma HasXor64(a: U64, b: U64)
    ensures forall i: nat :: Has(Xor64(a, b), i) <==> Has(a, i) != Has(b, i)
  {
    forall i: nat ensures Has(Xor(a, b), i) <==> Has(a, i) != Has(b, i) {
      HasXor(a, b, i);
    }
  }

  /** Two words with the same bits below 64 are equal. */
  lemma SameWord(a: U64, b: U64)
    requires forall i: nat :: Has(a, i) <==> Has(b, i)
    ensures a == b
  {
    Pow2At64();
    BitsDetermine(a, b, 64);
  }

  lemma XorComm(a: U64, b: U64)
    ensures Xor64(a, b) == Xor64(b, a)
  {
    HasXor64(a, b);
    HasXor64(b, a);
    SameWord(Xor64(a, b), Xor64(b, a));
  }

  lemma XorAssoc(a: U64, b: U64, c: U64)
    ensures Xor64(Xor64(a, b), c) == Xor64(a, Xor64(b, c))
  {
    HasXor64(a, b);
    HasXor64(Xor64(a, b), c);
    HasXor64(b, c);
    HasXor64(a, Xor64(b, c));
    SameWord(Xor64(Xor64(a, b), c), Xor64(a, Xor64(b, c)));
  }

  /** Xoring a word twice takes it out again. */
  lemma XorCancel(a: U64, b: U64)
    ensures Xor64(Xor64(a, b), b) == a
  {
    HasXor64(a, b);
    HasXor64(Xor64(a, b), b);
    SameWord(Xor64(Xor64(a, b), b), a);
  }

  lemma XorZero(a: U64)
    ensures Xor64(a, 0) == a && Xor64(0, a) == a
  {
  }

  // ---------------------------------------------------------------- splitmix64

  /** The increment of the splitmix64 state (the golden ratio scaled to 2^64). */
  const GOLDEN_GAMMA: U64 := 0x9e3779b97f4a7c15

  /** `z ^ (z >> k)`. */
  function XorShr(z: U64, k: nat): U64
  {
    Xor64(z, Shr(z, k))
  }

  /** `splitmix64(x)` of zobrist.cpp and tt.cpp: the advanced state and the value drawn. The
   *  state moves on by the odd constant 0x9e3779b97f4a7c15, modulo 2^64. */
  function SplitMix64(x: U64): (r: (U64, U64))
    ensures r.0 == (x + GOLDEN_GAMMA) % TWO64
  {
    var s := (x + GOLDEN_GAMMA) % TWO64;
    var z := MulLow(XorShr(s, 30), 0xbf58476d1ce4e5b9);
    var z2 := MulLow(XorShr(z, 27), 0x94d049bb133111eb);
    (s, XorShr(z2, 31))
  }
}
