/** The magic-bitboard half of attacks.cpp: for every square and slider the relevant mask, a
 *  multiplier (`magic`) and a shift, and a table slot `((occ & mask) * magic) >> shift` for
 *  every occupancy, checked against the slow ray walk when the tables are built. */
module Magics {
  import opened Types
  import opened Words
  import opened Bitboards
  import opened Attacks

  /** Entries per square: `rook_table[64][4096]`, `bishop_table[64][512]`. */
  function Width(rook: bool): nat
  {
    if rook then 4096 else 512
  }

  /** The most relevant squares a mask has (see `RookMaskSize`, `BishopMaskSize`). */
  function MaxBits(rook: bool): nat
  {
    if rook then 12 else 9
  }

  lemma WidthPow2(rook: bool, n: nat)
    requires n <= MaxBits(rook)
    ensures Pow2(n) <= Width(rook)
  {
    Pow2Mono(n, MaxBits(rook));
    Pow2Add(3, 6);
    Pow2Add(6, 6);
    assert Pow2(3) == 8;
    assert Pow2(6) == 64;
  }

  /** The slot of an occupancy: `(occ * magic) >> shift`. */
  function Slot(occ: Bitboard, magic: U64, shift: nat): (k: nat)
    requires shift <= 64
    ensures k < Pow2(64 - shift)
  {
    ShrBound(MulLow(occ, magic), shift);
    Shr(MulLow(occ, magic), shift)
  }

  // ---------------------------------------------------------------- enumerating a mask

  /** The squares of the mask in `pop_lsb` order (the `squares` array of the builders). */
  method MaskSquares(mask: Bitboard) returns (sqs: seq<Square>)
    ensures sqs == SquareList(mask)
  {
    sqs := [];
    var tmp := mask;
    while tmp != 0
      invariant sqs + SquareList(tmp) == SquareList(mask)
      decreases |SquareList(tmp)|
    {
      var s, rest := PopLsb(tmp);
      sqs := sqs + [s];
      tmp := rest;
    }
  }

  /** The occupancy formed from index `idx`: `sqs[b]` for every set bit `b < n` of `idx`. */
  function SubsetOcc(sqs: seq<Square>, idx: nat, n: nat): Bitboard
    requires n <= |sqs|
    decreases n
  {
    if n == 0 then 0
    else if Has(idx, n - 1) then Union(SubsetOcc(sqs, idx, n - 1), SqBB(sqs[n - 1]))
    else SubsetOcc(sqs, idx, n - 1)
  }

  /** The inner loop of the builders: or in `sq_bb(squares[b])` when `idx & (1 << b)`. */
  method SubsetOf(sqs: seq<Square>, idx: nat) returns (occ: Bitboard)
    ensures occ == SubsetOcc(sqs, idx, |sqs|)
  {
    occ := 0;
    for b := 0 to |sqs|
      invariant occ == SubsetOcc(sqs, idx, b)
    {
      BitTest(idx, b);
      if And(idx, Pow2(b)) != 0 {
        occ := Union(occ, SqBB(sqs[b]));
      }
    }
  }

  /** The squares among the first `n` of the list. */
  ghost function Prefix(sqs: seq<Square>, n: nat): set<Square>
    requires n <= |sqs|
  {
    set s | s in sqs[..n]
  }

  /** The index whose bits pick exactly the squares of `occ` among `sqs[..n]`. */
  function IndexOf(sqs: seq<Square>, occ: Bitboard, n: nat): (idx: nat)
    requires n <= |sqs|
    ensures idx < Pow2(n)
  {
    if n == 0 then 0 else IndexOf(sqs, occ, n - 1) + (if Has(occ, sqs[n - 1]) then Pow2(n - 1) else 0)
  }

  lemma {:induction false} IndexOfBits(sqs: seq<Square>, occ: Bitboard, n: nat, b: nat)
    requires b < n <= |sqs|
    ensures Has(IndexOf(sqs, occ, n), b) <==> Has(occ, sqs[b])
    decreases n
  {
    var x := IndexOf(sqs, occ, n - 1);
    if Has(occ, sqs[n - 1]) {
      HasAddPow2(x, n - 1, b);
    }
    if b < n - 1 {
      IndexOfBits(sqs, occ, n - 1, b);
    } else if !Has(occ, sqs[n - 1]) {
      HasHigh(x, n - 1, b);
    }
  }

  /** Indices with the same low `n` bits select the same occupancy. */
  lemma {:induction false} SubsetOccAgree(sqs: seq<Square>, i1: nat, i2: nat, n: nat)
    requires n <= |sqs|
    requires forall b :: 0 <= b < n ==> (Has(i1, b) <==> Has(i2, b))
    ensures SubsetOcc(sqs, i1, n) == SubsetOcc(sqs, i2, n)
    decreases n
  {
    if n > 0 {
      SubsetOccAgree(sqs, i1, i2, n - 1);
    }
  }

  /** Every occupancy of the listed squares is enumerated: index `IndexOf(sqs, occ, n)` gives
   *  the part of `occ` on `sqs[..n]`. */
  lemma {:induction false} IndexOfSelects(sqs: seq<Square>, occ: Bitboard, n: nat)
    requires n <= |sqs|
    ensures Squares(SubsetOcc(sqs, IndexOf(sqs, occ, n), n)) == Squares(occ) * Prefix(sqs, n)
    decreases n
  {
    if n == 0 {
      SquaresZero();
    } else {
      var idx, prev := IndexOf(sqs, occ, n), IndexOf(sqs, occ, n - 1);
      forall b | 0 <= b < n - 1
        ensures Has(idx, b) <==> Has(prev, b)
      {
        IndexOfBits(sqs, occ, n, b);
        IndexOfBits(sqs, occ, n - 1, b);
      }
      SubsetOccAgree(sqs, idx, prev, n - 1);
      IndexOfBits(sqs, occ, n, n - 1);
      IndexOfSelects(sqs, occ, n - 1);
      assert sqs[..n] == sqs[..n - 1] + [sqs[n - 1]];
      assert Prefix(sqs, n) == Prefix(sqs, n - 1) + {sqs[n - 1]};
    }
  }

  /** For the squares of a mask, the enumerated occupancy is `occ & mask`. */
  lemma IndexOfMask(mask: Bitboard, occ: Bitboard)
    ensures var sqs := SquareList(mask);
      SubsetOcc(sqs, IndexOf(sqs, occ, |sqs|), |sqs|) == Inter(occ, mask)
  {
    var sqs := SquareList(mask);
    SquareListSpec(mask);
    IndexOfSelects(sqs, occ, |sqs|);
    assert sqs[..|sqs|] == sqs;
    assert Prefix(sqs, |sqs|) == Squares(mask);
    SquaresInjective(SubsetOcc(sqs, IndexOf(sqs, occ, |sqs|), |sqs|), Inter(occ, mask));
  }

  // ---------------------------------------------------------------- testing a multiplier

  /** The number of mask squares suits the table and the shift is `64 - bits`. */
  predicate Fits(rook: bool, sqs: seq<Square>, shift: int)
  {
    |sqs| <= MaxBits(rook) && shift == 64 - |sqs|
  }

  /** The slot of the `i`-th enumerated occupancy. */
  function KeyAt(sqs: seq<Square>, shift: nat, magic: U64, i: nat): nat
    requires shift <= 64
  {
    Slot(SubsetOcc(sqs, i, |sqs|), magic, shift)
  }

  /** The slow attacks for the `i`-th enumerated occupancy. */
  ghost function AttAt(rook: bool, sq: Square, sqs: seq<Square>, i: nat): set<Square>
  {
    SliderSet(rook, sq, SubsetOcc(sqs, i, |sqs|))
  }

  /** `magic` sends two occupancies of the mask to one slot only when their attacks agree. */
  ghost predicate NoCollision(rook: bool, sq: Square, sqs: seq<Square>, shift: nat, magic: U64)
    requires shift <= 64
  {
    forall i, j :: 0 <= i < j < Pow2(|sqs|) && KeyAt(sqs, shift, magic, i) == KeyAt(sqs, shift, magic, j) ==>
      AttAt(rook, sq, sqs, i) == AttAt(rook, sq, sqs, j)
  }

  /** After the first `idx` occupancies: every slot taken is owned by an earlier index whose
   *  key it is, and every earlier index's slot is owned by one with the same attacks. */
  ghost predicate Claimed(rook: bool, sq: Square, sqs: seq<Square>, shift: nat, magic: U64,
                          owner: map<nat, nat>, idx: nat)
    requires shift <= 64
  {
    && (forall k :: k in owner ==> owner[k] < idx && KeyAt(sqs, shift, magic, owner[k]) == k)
    && (forall i :: 0 <= i < idx ==>
          (KeyAt(sqs, shift, magic, i) in owner &&
           AttAt(rook, sq, sqs, owner[KeyAt(sqs, shift, magic, i)]) == AttAt(rook, sq, sqs, i)))
  }

  lemma ClaimStep(rook: bool, sq: Square, sqs: seq<Square>, shift: nat, magic: U64,
                  owner: map<nat, nat>, idx: nat)
    requires shift <= 64 && Claimed(rook, sq, sqs, shift, magic, owner, idx)
    requires var key := KeyAt(sqs, shift, magic, idx);
      key in owner ==> AttAt(rook, sq, sqs, owner[key]) == AttAt(rook, sq, sqs, idx)
    ensures var key := KeyAt(sqs, shift, magic, idx);
      Claimed(rook, sq, sqs, shift, magic, if key in owner then owner else owner[key := idx], idx + 1)
  {
  }

  /** Once every occupancy has claimed its slot without a clash, there is no collision. */
  lemma ClaimDone(rook: bool, sq: Square, sqs: seq<Square>, shift: nat, magic: U64,
                  owner: map<nat, nat>)
    requires shift <= 64 && Claimed(rook, sq, sqs, shift, magic, owner, Pow2(|sqs|))
    ensures NoCollision(rook, sq, sqs, shift, magic)
  {
  }

  /** The local table agrees with the owners: a slot is filled exactly when owned, and holds
   *  its owner's attacks. */
  ghost predicate Holds(rook: bool, sq: Square, sqs: seq<Square>, owner: map<nat, nat>,
                        local: seq<Bitboard>, filled: seq<bool>)
  {
    && |filled| == |local|
    && (forall k :: 0 <= k < |local| ==> (filled[k] <==> k in owner))
    && (forall k :: k in owner ==> k < |local| && Squares(local[k]) == AttAt(rook, sq, sqs, owner[k]))
  }

  lemma HoldsStep(rook: bool, sq: Square, sqs: seq<Square>, owner: map<nat, nat>,
                  local: seq<Bitboard>, filled: seq<bool>, idx: nat, key: nat, att: Bitboard)
    requires Holds(rook, sq, sqs, owner, local, filled) && key < |local|
    requires Squares(att) == AttAt(rook, sq, sqs, idx)
    requires key in owner ==> local[key] == att
    ensures var owner' := if key in owner then owner else owner[key := idx];
      Holds(rook, sq, sqs, owner', local[key := att], filled[key := true])
  {
  }

  /** A finished table answers every enumerated occupancy with its attacks. */
  lemma HoldsDone(rook: bool, sq: Square, sqs: seq<Square>, shift: nat, magic: U64,
                  owner: map<nat, nat>, local: seq<Bitboard>, filled: seq<bool>)
    requires shift <= 64 && Claimed(rook, sq, sqs, shift, magic, owner, Pow2(|sqs|))
    requires Holds(rook, sq, sqs, owner, local, filled)
    ensures forall i :: 0 <= i < Pow2(|sqs|) ==>
      KeyAt(sqs, shift, magic, i) < |local| && Squares(local[KeyAt(sqs, shift, magic, i)]) == AttAt(rook, sq, sqs, i)
  {
  }

  /** Slot `key` taken by occupancy `idx` without a clash: both invariants of the loop move on. */
  lemma ClaimAndHold(rook: bool, sq: Square, sqs: seq<Square>, shift: nat, magic: U64, owner: map<nat, nat>,
                     local: seq<Bitboard>, filled: seq<bool>, idx: nat, key: nat, att: Bitboard)
    requires shift <= 64 && Claimed(rook, sq, sqs, shift, magic, owner, idx)
    requires Holds(rook, sq, sqs, owner, local, filled)
    requires key == KeyAt(sqs, shift, magic, idx) && key < |local| && Squares(att) == AttAt(rook, sq, sqs, idx)
    requires !(filled[key] && local[key] != att)
    ensures var owner' := if key in owner then owner else owner[key := idx];
      Claimed(rook, sq, sqs, shift, magic, owner', idx + 1) &&
      Holds(rook, sq, sqs, owner', local[key := att], filled[key := true])
  {
    ClaimStep(rook, sq, sqs, shift, magic, owner, idx);
    HoldsStep(rook, sq, sqs, owner, local, filled, idx, key, att);
  }

  /** A filled slot holding attacks other than the current index's is a collision. */
  lemma ClaimCollides(rook: bool, sq: Square, sqs: seq<Square>, shift: nat, magic: U64,
                      owner: map<nat, nat>, idx: nat, local: seq<Bitboard>, filled: seq<bool>, att: Bitboard)
    requires shift <= 64 && Claimed(rook, sq, sqs, shift, magic, owner, idx) && idx < Pow2(|sqs|)
    requires Holds(rook, sq, sqs, owner, local, filled)
    requires var key := KeyAt(sqs, shift, magic, idx);
      key < |local| && filled[key] && local[key] != att && Squares(att) == AttAt(rook, sq, sqs, idx)
    ensures !NoCollision(rook, sq, sqs, shift, magic)
  {
    var key := KeyAt(sqs, shift, magic, idx);
    if Squares(local[key]) == Squares(att) {
      SquaresInjective(local[key], att);
    }
    assert KeyAt(sqs, shift, magic, owner[key]) == KeyAt(sqs, shift, magic, idx);
  }

  /** The common loop of `build_table_for_square` and `find_magic_for_square`: fills a local
   *  table slot by slot and gives up at the first slot claimed by different attacks. */
  method TryMagic(rook: bool, sq: Square, sqs: seq<Square>, shift: nat, magic: U64)
    returns (ok: bool, local: array<Bitboard>)
    requires Fits(rook, sqs, shift)
    ensures local.Length == Width(rook) && Pow2(|sqs|) <= Width(rook)
    ensures ok <==> NoCollision(rook, sq, sqs, shift, magic)
    ensures ok ==> forall i :: 0 <= i < Pow2(|sqs|) ==>
      Squares(local[KeyAt(sqs, shift, magic, i)]) == AttAt(rook, sq, sqs, i)
  {
    var size := Pow2(|sqs|);
    WidthPow2(rook, |sqs|);
    local := new Bitboard[Width(rook)](_ => 0);
    var filled := new bool[Width(rook)];
    forall k | 0 <= k < filled.Length {
      filled[k] := false;
    }
    ghost var owner: map<nat, nat> := map[];
    assert Pow2(64 - shift) == size;
    var idx := 0;
    while idx < size
      invariant 0 <= idx <= size && local.Length == filled.Length == Width(rook)
      invariant Claimed(rook, sq, sqs, shift, magic, owner, idx)
      invariant Holds(rook, sq, sqs, owner, local[..], filled[..])
    {
      var occ := SubsetOf(sqs, idx);
      var att := SlowAttacks(rook, sq, occ);
      var key := Slot(occ, magic, shift);
      assert key == KeyAt(sqs, shift, magic, idx);
      assert Squares(att) == AttAt(rook, sq, sqs, idx);
      ghost var tbl, fill := local[..], filled[..];
      if filled[key] && local[key] != att {
        ClaimCollides(rook, sq, sqs, shift, magic, owner, idx, tbl, fill, att);
        ok := false;
        return;
      }
      ClaimAndHold(rook, sq, sqs, shift, magic, owner, tbl, fill, idx, key, att);
      Record(local, filled, key, att);
      if key !in owner {
        owner := owner[key := idx];
      }
      idx := idx + 1;
    }
    HoldsDone(rook, sq, sqs, shift, magic, owner, local[..], filled[..]);
    ClaimDone(rook, sq, sqs, shift, magic, owner);
    ok := true;
  }

  /** `filled[key] = true; local[key] = att;` */
  method Record(local: array<Bitboard>, filled: array<bool>, key: nat, att: Bitboard)
    requires key < local.Length && key < filled.Length
    modifies local, filled
    ensures local[..] == old(local[..])[key := att] && filled[..] == old(filled[..])[key := true]
  {
    filled[key] := true;
    local[key] := att;
  }

  // ---------------------------------------------------------------- searching for a multiplier

  const HIGH_BYTE: U64 := 0xFF00000000000000

  /** The spread heuristic: `(mask * magic)` sets at least six bits of its top byte. */
  predicate Spreads(mask: Bitboard, magic: U64)
  {
    Popcount(And(MulLow(mask, magic), HIGH_BYTE)) >= 6
  }

  /** The candidate is kept: it spreads and it has no collision. */
  ghost predicate Accepted(rook: bool, sq: Square, mask: Bitboard, sqs: seq<Square>, shift: nat, magic: U64)
    requires shift <= 64
  {
    Spreads(mask, magic) && NoCollision(rook, sq, sqs, shift, magic)
  }

  /** `find_magic_for_square`: the first candidate that spreads and has no collision (`found`,
   *  at position `k`), or 0 when none does. The candidates are the draws of
   *  `random_u64_fewbits`. */
  method FindMagic(rook: bool, sq: Square, mask: Bitboard, sqs: seq<Square>, shift: nat, candidates: seq<U64>)
    returns (magic: U64, ghost found: bool, ghost k: nat)
    requires Fits(rook, sqs, shift)
    ensures found ==> k < |candidates| && magic == candidates[k] && Accepted(rook, sq, mask, sqs, shift, magic)
    ensures !found ==> magic == 0 && k == |candidates|
    ensures forall j :: 0 <= j < k ==> !Accepted(rook, sq, mask, sqs, shift, candidates[j])
  {
    var iter := 0;
    while iter < |candidates|
      invariant 0 <= iter <= |candidates|
      invariant forall j :: 0 <= j < iter ==> !Accepted(rook, sq, mask, sqs, shift, candidates[j])
    {
      var candidate := candidates[iter];
      if Spreads(mask, candidate) {
        var ok, _ := TryMagic(rook, sq, sqs, shift, candidate);
        if ok {
          return candidate, true, iter;
        }
      }
      iter := iter + 1;
    }
    return 0, false, iter;
  }

  // ---------------------------------------------------------------- the tables

  const ROOK_MAGICS: seq<U64> := [
    0x0a8002c000108020, 0x006c00049b0002001, 0x0100200010090040, 0x2480041000800801,
    0x0280028004000800, 0x0900410008040022, 0x0280020001001080, 0x2880002041000080,
    0x0a000800080400034, 0x0004808020004000, 0x2290802004801000, 0x0411000d00100020,
    0x0402800800040080, 0x000b000401004208, 0x2409000100040200, 0x0001002100004082,
    0x0022878001e24000, 0x1090810021004010, 0x0801030040200012, 0x000500808008001000,
    0x0a08018014000880, 0x8000808004000200, 0x0201008080010200, 0x0801020000441091,
    0x0008000802040005, 0x1040200040100048, 0x0001202004020082, 0x0d14880480100080,
    0x12040280080080, 0x0100040080020080, 0x9020010080800200, 0x0813241200148449,
    0x0491604001800080, 0x000100401000402001, 0x4820010021001040, 0x0400402202000812,
    0x0209009005000802, 0x0810800601800400, 0x4301083214000150, 0x204026458e001401,
    0x0040204000808000, 0x8001008040010020, 0x8410820820420010, 0x01003001000090020,
    0x0804040008008080, 0x0012000810020004, 0x1000100200040208, 0x430000a044020001,
    0x0280009023410300, 0x0e01000400002240, 0x000200100401700, 0x2244100408008080,
    0x00080000400801980, 0x0002000810040200, 0x8010100228810400, 0x2000009044210200,
    0x4080008040102101, 0x0040002080411d01, 0x2005524060000901, 0x0502001008400422,
    0x489a000810200402, 0x0001004400080a13, 0x4000011008020084, 0x0026002114058042
  ]

  const BISHOP_MAGICS: seq<U64> := [
    0x0420c80100408202, 0x1204311202260108, 0x2008208102030000, 0x000024081001000ca,
    0x0488484041002110, 0x001a080c2c010018, 0x0020a02a2400084, 0x0440404400a01000,
    0x0008931041080080, 0x0002004841080221, 0x0080460802188000, 0x4000090401080092,
    0x4000011040a00004, 0x0020011048040504, 0x2008008401084000, 0x000102422a101a02,
    0x2040801082420404, 0x8104900210440100, 0x0202101012820109, 0x0248090401409004,
    0x0044820404a00020, 0x00040808110100100, 0x0480a80100882000, 0x184820208a011010,
    0x0110400206085200, 0x0001050010104201, 0x4008480070008010, 0x8440040018410120,
    0x000041010000104000, 0x4010004080241000, 0x0001244082061040, 0x0051060000288441,
    0x0002215410a05820, 0x6000941020a0c220, 0x0000f2080100020201, 0x8010020081180080,
    0x0940012060060080, 0x0620008284290800, 0x0008468100140900, 0x418400aa01802100,
    0x4000882440015002, 0x000420220a11081, 0x0401a26030000804, 0x0002184208000084,
    0xa430820a0410c201, 0x0640053805080180, 0x4a04010a44100601, 0x00010014901001021,
    0x0422411031300100, 0x0824222110280000, 0x8800020a0b340300, 0x00a8000441109088,
    0x0404000861010208, 0x0040112002042200, 0x02141006480b00a0, 0x2210108081004411,
    0x2010804070100803, 0x7a0011010090ac31, 0x0018005100880400, 0x8010001081084805,
    0x400200021202020a, 0x04100342100a0221, 0x0404408801010204, 0x6360041408104012
  ]

  /** One square's `*_mask`, `*_magic` and `*_shift` entries. */
  datatype MagicEntry = MagicEntry(mask: Bitboard, magic: U64, shift: int)

  /** The entry's mask is the relevant mask of the square and its shift leaves one key bit per
   *  mask square. */
  ghost predicate Prepared(rook: bool, sq: Square, e: MagicEntry)
  {
    Squares(e.mask) == MaskSet(rook, sq) && Fits(rook, SquareList(e.mask), e.shift)
  }

  /** The magic lookup for any occupancy finds the enumerated occupancy with the same mask
   *  squares, and so the slow attacks for that occupancy. */
  lemma MagicLookup(rook: bool, sq: Square, e: MagicEntry, occ: Bitboard) returns (i: nat)
    requires Prepared(rook, sq, e)
    ensures i < Pow2(|SquareList(e.mask)|)
    ensures KeyAt(SquareList(e.mask), e.shift, e.magic, i) == Slot(Inter(occ, e.mask), e.magic, e.shift)
    ensures AttAt(rook, sq, SquareList(e.mask), i) == SliderSet(rook, sq, occ)
  {
    var sqs := SquareList(e.mask);
    i := IndexOf(sqs, occ, |sqs|);
    IndexOfMask(e.mask, occ);
    forall s | s in MaskSet(rook, sq)
      ensures Has(occ, s) <==> Has(Inter(occ, e.mask), s)
    {
      HasAnd(occ, e.mask, s);
      assert s in Squares(e.mask);
    }
    SliderRelevant(rook, sq, occ, Inter(occ, e.mask));
  }

  /** The built-in magics of one slider. */
  function BuiltIn(rook: bool): seq<U64>
  {
    if rook then ROOK_MAGICS else BISHOP_MAGICS
  }

  /** An entry made from the relevant mask, `64 - popcount(mask)` and any magic is prepared. */
  lemma PrepareEntry(rook: bool, sq: Square, e: MagicEntry)
    requires Squares(e.mask) == MaskSet(rook, sq) && e.shift == 64 - |Squares(e.mask)|
    ensures Prepared(rook, sq, e)
  {
    SquareListLength(e.mask);
    if rook {
      RookMaskSize(sq);
    } else {
      BishopMaskSize(sq);
    }
  }

  /** The entry as the first loop of `init_magics` leaves it: prepared, with the built-in
   *  magic. */
  ghost predicate Fresh(rook: bool, sq: Square, e: MagicEntry)
  {
    Prepared(rook, sq, e) && e.magic == BuiltIn(rook)[sq]
  }

  /** The entry is prepared and holds the built-in magic whenever that has no collision. */
  ghost predicate KeepsBuiltIn(rook: bool, sq: Square, e: MagicEntry)
  {
    Prepared(rook, sq, e) &&
    (NoCollision(rook, sq, SquareList(e.mask), e.shift, BuiltIn(rook)[sq]) ==> e.magic == BuiltIn(rook)[sq])
  }

  /** `rook_table` (64 x 4096) or `bishop_table` (64 x 512). */
  ghost predicate Shaped(rook: bool, table: array2<Bitboard>)
  {
    table.Length0 == 64 && table.Length1 == Width(rook)
  }

  /** Row `sq` of a table, as a sequence. */
  ghost function Row(table: array2<Bitboard>, sq: Square): (row: seq<Bitboard>)
    reads table
    requires table.Length0 == 64
    ensures |row| == table.Length1
  {
    seq(table.Length1, c requires 0 <= c < table.Length1 reads table => table[sq, c])
  }

  /** Every enumerated occupancy of the mask of `e` finds its slow attacks at the slot that
   *  `e`'s magic and shift give it in the row. */
  ghost predicate Answers(rook: bool, sq: Square, e: MagicEntry, row: seq<Bitboard>)
    requires |row| == Width(rook) && Prepared(rook, sq, e)
  {
    var sqs := SquareList(e.mask);
    WidthPow2(rook, |sqs|);
    forall i :: 0 <= i < Pow2(|sqs|) ==>
      Squares(row[KeyAt(sqs, e.shift, e.magic, i)]) == AttAt(rook, sq, sqs, i)
  }

  /** The entry is prepared and, unless its magic is 0, its row answers for it. */
  ghost predicate Served(rook: bool, sq: Square, e: MagicEntry, row: seq<Bitboard>)
    requires |row| == Width(rook)
  {
    Prepared(rook, sq, e) && (e.magic != 0 ==> Answers(rook, sq, e, row))
  }

  /** One square's entry from the first loop of `init_magics`: the relevant mask, the shift
   *  `64 - popcount(mask)` and the built-in magic. */
  method NewEntry(rook: bool, sq: Square) returns (e: MagicEntry)
    ensures Fresh(rook, sq, e)
  {
    var mask;
    if rook {
      mask := RookRelevantMask(sq);
    } else {
      mask := BishopRelevantMask(sq);
    }
    e := MagicEntry(mask, BuiltIn(rook)[sq], 64 - Popcount(mask));
    PrepareEntry(rook, sq, e);
  }

  /** A row that agrees with a local table on every slot below `2^bits` answers as the local
   *  table does. */
  lemma AnswersFromLocal(rook: bool, sq: Square, e: MagicEntry, row: seq<Bitboard>, local: seq<Bitboard>)
    requires |row| == |local| == Width(rook) && Prepared(rook, sq, e)
    requires Pow2(|SquareList(e.mask)|) <= Width(rook)
    requires row[..Pow2(|SquareList(e.mask)|)] == local[..Pow2(|SquareList(e.mask)|)]
    requires forall i :: 0 <= i < Pow2(|SquareList(e.mask)|) ==>
      Squares(local[KeyAt(SquareList(e.mask), e.shift, e.magic, i)]) == AttAt(rook, sq, SquareList(e.mask), i)
    ensures Answers(rook, sq, e, row)
  {
    var sqs := SquareList(e.mask);
    var size := Pow2(|sqs|);
    forall i | 0 <= i < size
      ensures Squares(row[KeyAt(sqs, e.shift, e.magic, i)]) == AttAt(rook, sq, sqs, i)
    {
      var key := KeyAt(sqs, e.shift, e.magic, i);
      assert key < size;
      assert row[key] == row[..size][key];
    }
  }

  /** The copy loop of `build_table_for_square`: the first `size` slots of row `sq` take the
   *  local table's values; nothing else changes. */
  method CopyRow(t: array2<Bitboard>, sq: Square, local: array<Bitboard>, size: nat)
    requires t.Length0 == 64 && size <= t.Length1 && size <= local.Length
    modifies t
    ensures Row(t, sq)[..size] == local[..size]
    ensures Row(t, sq)[size..] == old(Row(t, sq))[size..]
    ensures forall r: Square :: r != sq ==> Row(t, r) == old(Row(t, r))
  {
    var i := 0;
    while i < size
      invariant 0 <= i <= size
      modifies t
      invariant forall c :: 0 <= c < i ==> t[sq, c] == local[c]
      invariant forall r, c :: 0 <= r < 64 && 0 <= c < t.Length1 && (r != sq || c >= i) ==>
        t[r, c] == old(t[r, c])
    {
      t[sq, i] := local[i];
      i := i + 1;
    }
    forall r: Square | r != sq
      ensures Row(t, r) == old(Row(t, r))
    {
      assert forall c :: 0 <= c < t.Length1 ==> Row(t, r)[c] == old(Row(t, r))[c];
    }
    assert forall c :: 0 <= c < size ==> Row(t, sq)[..size][c] == local[..size][c];
    assert forall c :: size <= c < t.Length1 ==> Row(t, sq)[c] == old(Row(t, sq))[c];
  }

  /** The static state of attacks.cpp: per slider and square the mask, magic and shift
   *  (`rook_mask`, `rook_magic`, `rook_shift`, ...), the attack tables and `magics_ready`. */
  class MagicTables {
    const rookInfo: array<MagicEntry>
    const bishopInfo: array<MagicEntry>
    const rookTable: array2<Bitboard>
    const bishopTable: array2<Bitboard>
    var ready: bool

    ghost predicate Valid()
      reads this
    {
      && rookInfo.Length == 64 && bishopInfo.Length == 64 && rookInfo != bishopInfo
      && Shaped(true, rookTable) && Shaped(false, bishopTable)
    }

    function Info(rook: bool): array<MagicEntry>
      reads this
    {
      if rook then rookInfo else bishopInfo
    }

    function Table(rook: bool): array2<Bitboard>
      reads this
    {
      if rook then rookTable else bishopTable
    }

    /** Once the tables are ready every square of both sliders is served. */
    ghost predicate Sound()
      reads this, rookInfo, bishopInfo, rookTable, bishopTable
      requires Valid()
    {
      ready ==> forall sq: Square ::
        Served(true, sq, rookInfo[sq], Row(rookTable, sq)) && Served(false, sq, bishopInfo[sq], Row(bishopTable, sq))
    }

    /** The zero-initialised statics, with `magics_ready` false. */
    constructor ()
      ensures Valid() && Sound() && !ready
    {
      rookInfo := new MagicEntry[64](_ => MagicEntry(0, 0, 0));
      bishopInfo := new MagicEntry[64](_ => MagicEntry(0, 0, 0));
      rookTable := new Bitboard[64, 4096]((_, _) => 0);
      bishopTable := new Bitboard[64, 512]((_, _) => 0);
      ready := false;
    }

    /** `build_table_for_square`: enumerates the occupancies of the square's mask into a local
     *  table with `magic` and, when no two of them collide, copies the table into row `sq`.
     *  Nothing else of the tables changes. */
    method BuildTable(rook: bool, sq: Square, magic: U64) returns (ok: bool)
      requires Valid() && Prepared(rook, sq, Info(rook)[sq])
      modifies Table(rook)
      ensures var e := Info(rook)[sq]; ok <==> NoCollision(rook, sq, SquareList(e.mask), e.shift, magic)
      ensures ok ==> Answers(rook, sq, Info(rook)[sq].(magic := magic), Row(Table(rook), sq))
      ensures forall r: Square :: r != sq || !ok ==> Row(Table(rook), r) == old(Row(Table(rook), r))
    {
      var e := Info(rook)[sq];
      var sqs := MaskSquares(e.mask);
      var local;
      ok, local := TryMagic(rook, sq, sqs, e.shift, magic);
      if !ok {
        return;
      }
      var size := Pow2(|sqs|);
      CopyRow(Table(rook), sq, local, size);
      AnswersFromLocal(rook, sq, e.(magic := magic), Row(Table(rook), sq), local[..]);
    }

    /** One slider and square of the second loop of `init_magics`: keep the built-in magic
     *  when its table builds; otherwise search the candidates and, when one is found, adopt it
     *  and build with it; otherwise mark the square with magic 0 (slow attacks). The mask and
     *  shift stay, and every other square keeps its entry and what the table answers for it. */
    method SetUp(rook: bool, sq: Square, candidates: seq<U64>)
      requires Valid() && Prepared(rook, sq, Info(rook)[sq])
      modifies Info(rook), Table(rook)
      ensures Served(rook, sq, Info(rook)[sq], Row(Table(rook), sq))
      ensures Info(rook)[sq].mask == old(Info(rook)[sq].mask) && Info(rook)[sq].shift == old(Info(rook)[sq].shift)
      ensures var e := old(Info(rook)[sq]);
        NoCollision(rook, sq, SquareList(e.mask), e.shift, e.magic) ==> Info(rook)[sq] == e
      ensures var e := old(Info(rook)[sq]); var m := Info(rook)[sq].magic;
        !NoCollision(rook, sq, SquareList(e.mask), e.shift, e.magic) ==>
          m == 0 || (m in candidates && Accepted(rook, sq, e.mask, SquareList(e.mask), e.shift, m))
      ensures forall s :: 0 <= s < 64 && s != sq ==> Info(rook)[s] == old(Info(rook)[s])
      ensures forall s: Square :: s != sq ==> Row(Table(rook), s) == old(Row(Table(rook), s))
    {
      var e := Info(rook)[sq];
      var built := BuildTable(rook, sq, e.magic);
      if !built {
        Fallback(rook, sq, candidates);
      } else {
        assert e.(magic := e.magic) == e;
      }
    }

    /** The fallback of `init_magics` for a square whose built-in magic collides: search the
     *  candidates, record the magic found (0 when none is) and build its table. */
    method Fallback(rook: bool, sq: Square, candidates: seq<U64>)
      requires Valid() && Prepared(rook, sq, Info(rook)[sq])
      modifies Info(rook), Table(rook)
      ensures Served(rook, sq, Info(rook)[sq], Row(Table(rook), sq))
      ensures var e := old(Info(rook)[sq]); var m := Info(rook)[sq].magic;
        Info(rook)[sq] == e.(magic := m) && (m == 0 || (m in candidates && Accepted(rook, sq, e.mask, SquareList(e.mask), e.shift, m)))
      ensures forall s :: 0 <= s < 64 && s != sq ==> Info(rook)[s] == old(Info(rook)[s])
      ensures forall s: Square :: s != sq ==> Row(Table(rook), s) == old(Row(Table(rook), s))
    {
      var e := Info(rook)[sq];
      var sqs := MaskSquares(e.mask);
      var m, found, k := FindMagic(rook, sq, e.mask, sqs, e.shift, candidates);
      var info := Info(rook);
      info[sq] := e.(magic := m);
      if m != 0 {
        assert found && m == candidates[k];
        var _ := BuildTable(rook, sq, m);
      }
    }

    /** The first loop of `init_magics`: every square gets its relevant mask, the shift
     *  `64 - bits` and the built-in magic. */
    method PrepareEntries()
      requires Valid()
      modifies rookInfo, bishopInfo
      ensures forall sq: Square :: Fresh(true, sq, rookInfo[sq]) && Fresh(false, sq, bishopInfo[sq])
    {
      var ri, bi := rookInfo, bishopInfo;
      for sq := 0 to 64
        invariant forall s :: 0 <= s < sq ==> Fresh(true, s, ri[s])
        invariant forall s :: 0 <= s < sq ==> Fresh(false, s, bi[s])
      {
        var re := NewEntry(true, sq);
        var be := NewEntry(false, sq);
        ghost var rs, bs := ri[..], bi[..];
        ri[sq] := re;
        bi[sq] := be;
        assert ri[..] == rs[sq := re] && bi[..] == bs[sq := be];
      }
    }

    /** The second loop of `init_magics`: sets up both sliders on every square in turn. */
    method BuildAll(draws: (bool, Square) -> seq<U64>)
      requires Valid() && forall sq: Square :: Fresh(true, sq, rookInfo[sq]) && Fresh(false, sq, bishopInfo[sq])
      modifies rookInfo, bishopInfo, rookTable, bishopTable
      ensures forall sq: Square ::
        Served(true, sq, rookInfo[sq], Row(rookTable, sq)) && Served(false, sq, bishopInfo[sq], Row(bishopTable, sq))
      ensures forall sq: Square :: KeepsBuiltIn(true, sq, rookInfo[sq]) && KeepsBuiltIn(false, sq, bishopInfo[sq])
    {
      for sq := 0 to 64
        invariant Done(true, sq) && Done(false, sq)
      {
        SetUpNext(true, sq, draws(true, sq));
        SetUpNext(false, sq, draws(false, sq));
      }
      assert Info(true) == rookInfo && Table(true) == rookTable;
      assert Info(false) == bishopInfo && Table(false) == bishopTable;
      forall s: Square
        ensures Served(true, s, rookInfo[s], Row(rookTable, s)) && Served(false, s, bishopInfo[s], Row(bishopTable, s))
        ensures KeepsBuiltIn(true, s, rookInfo[s]) && KeepsBuiltIn(false, s, bishopInfo[s])
      {
      }
    }

    /** The squares before `sq` are set up and the others still hold their fresh entries. */
    ghost predicate Done(rook: bool, sq: nat)
      reads this, Info(rook), Table(rook)
      requires Valid()
    {
      forall s: Square ::
        && (s < sq ==> Served(rook, s, Info(rook)[s], Row(Table(rook), s)) && KeepsBuiltIn(rook, s, Info(rook)[s]))
        && (sq <= s ==> Fresh(rook, s, Info(rook)[s]))
    }

    /** One slider on the next square of the second loop of `init_magics`. */
    method SetUpNext(rook: bool, sq: Square, candidates: seq<U64>)
      requires Valid() && Done(rook, sq)
      modifies Info(rook), Table(rook)
      ensures Done(rook, sq + 1)
    {
      SetUp(rook, sq, candidates);
    }

    /** `init_magics`: prepares the entries, builds the tables (searching the candidates
     *  `draws` for a replacement wherever the built-in magic collides) and marks them ready.
     *  A second call changes nothing. */
    method InitMagics(draws: (bool, Square) -> seq<U64>)
      requires Valid() && Sound()
      modifies this, rookInfo, bishopInfo, rookTable, bishopTable
      ensures Valid() && Sound() && ready
      ensures old(ready) ==> unchanged(rookInfo, bishopInfo, rookTable, bishopTable)
      ensures !old(ready) ==> forall sq: Square :: KeepsBuiltIn(true, sq, rookInfo[sq]) && KeepsBuiltIn(false, sq, bishopInfo[sq])
    {
      if ready {
        return;
      }
      PrepareEntries();
      BuildAll(draws);
      ready := true;
    }

    /** `rook_attacks` / `bishop_attacks`: the slow walk before the tables are ready or for a
     *  square without a magic, the table slot of `occ & mask` otherwise. Either way the slow
     *  attacks. */
    method SliderAttacks(rook: bool, sq: Square, occ: Bitboard) returns (a: Bitboard)
      requires Valid() && Sound()
      ensures Squares(a) == SliderSet(rook, sq, occ)
    {
      var e := Info(rook)[sq];
      if !ready || e.magic == 0 {
        a := SlowAttacks(rook, sq, occ);
      } else {
        assert Served(rook, sq, e, Row(Table(rook), sq)) by {
          if rook {
            assert Served(true, sq, rookInfo[sq], Row(rookTable, sq));
          } else {
            assert Served(false, sq, bishopInfo[sq], Row(bishopTable, sq));
          }
        }
        var i := MagicLookup(rook, sq, e, occ);
        WidthPow2(rook, |SquareList(e.mask)|);
        var key := Slot(Inter(occ, e.mask), e.magic, e.shift);
        a := Table(rook)[sq, key];
      }
    }

    method RookAttacks(sq: Square, occ: Bitboard) returns (a: Bitboard)
      requires Valid() && Sound()
      ensures Squares(a) == SliderSet(true, sq, occ)
    {
      a := SliderAttacks(true, sq, occ);
    }

    method BishopAttacks(sq: Square, occ: Bitboard) returns (a: Bitboard)
      requires Valid() && Sound()
      ensures Squares(a) == SliderSet(false, sq, occ)
    {
      a := SliderAttacks(false, sq, occ);
    }
  }
}
