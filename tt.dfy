/** The transposition table of tt.h/tt.cpp: a vector of 16-byte entries addressed by
 *  `key % size`, with depth-preferred replacement for the same key and always-replace for a
 *  different one; and `zobrist_key_slow`, the full-recomputation position key. */
module TransTable {
  import opened Types
  import opened Words
  import opened Moves
  import opened PositionSpec
  import opened Wrappers
  import opened Zobrist
  import opened Position

  /** `int8_t`, `int16_t` and `uint32_t` values. */
  type I8 = x: int | -128 <= x < 128
  type I16 = x: int | -32768 <= x < 32768
  type U32 = x: int | 0 <= x < 0x1_0000_0000

  /** The conversions `(int8_t)x` and `(int16_t)x`: the value modulo 2^8 (2^16), read as two's
   *  complement. */
  function ToI8(x: int): (r: I8)
    ensures -128 <= x < 128 ==> r == x
    ensures (r - x) % 256 == 0
  {
    (x + 128) % 256 - 128
  }

  function ToI16(x: int): (r: I16)
    ensures -32768 <= x < 32768 ==> r == x
    ensures (r - x) % 65536 == 0
  {
    (x + 32768) % 65536 - 32768
  }

  const TT_ALPHA: Byte := 0
  const TT_BETA: Byte := 1
  const TT_EXACT: Byte := 2

  /** `TTEntry`: 8 + 4 + 2 + 1 + 1 = 16 bytes. */
  datatype Entry = Entry(key: U64, bestMove: U32, score: I16, depth: I8, flag: Byte)

  const ENTRY_BYTES: nat := 16

  /** `TTEntry{}`, which is also what `memset(0)` leaves (TT_ALPHA is 0). */
  const EMPTY_ENTRY: Entry := Entry(0, 0, 0, 0, TT_ALPHA)

  /** The number of entries `resize_mb(mb)` allocates: `mb` converted to `size_t` and multiplied
   *  by 2^20 modulo 2^64, divided by the entry size, and at least one. */
  function SlotCount(mb: int): (n: nat)
    ensures n >= 1
    ensures 0 < mb < 0x1000_0000_0000 ==> n == mb * 65536 && n * ENTRY_BYTES == mb * 1024 * 1024
    ensures mb == 0 ==> n == 1
  {
    var bytes := (mb % TWO64) * 1048576 % TWO64;
    var n := bytes / ENTRY_BYTES;
    if n < 1 then 1 else n
  }

  /** The slot of `key` in a table of `size` entries. */
  function Slot(key: U64, size: nat): nat
    requires size > 0
  {
    key % size
  }

  /** What `probe` finds for `key`: the entry in its slot when that entry carries the key. */
  function Lookup(t: seq<Entry>, key: U64): (r: Option<Entry>)
    ensures r.Some? ==> |t| > 0 && r.value == t[Slot(key, |t|)] && r.value.key == key
    ensures r.None? ==> |t| == 0 || t[Slot(key, |t|)].key != key
  {
    if |t| == 0 then None
    else if t[Slot(key, |t|)].key == key then Some(t[Slot(key, |t|)])
    else None
  }

  /** The table after `store`: the slot of `key` is overwritten unless it already holds `key`
   *  at a greater depth. */
  function Stored(t: seq<Entry>, key: U64, depth: int, score: int, flag: Byte, move: U32): (r: seq<Entry>)
    ensures |r| == |t|
    ensures forall i :: 0 <= i < |t| && i != Slot(key, |t|) ==> r[i] == t[i]
    ensures |t| > 0 ==> r[Slot(key, |t|)].key == key
  {
    if |t| == 0 then t
    else
      var i := Slot(key, |t|);
      var e := t[i];
      if e.key != key || depth >= e.depth then t[i := Entry(key, move, ToI16(score), ToI8(depth), flag)]
      else t
  }

  class TT {
    var t: seq<Entry>

    /** A default-constructed table is empty. */
    constructor ()
      ensures t == []
    {
      t := [];
    }

    /** `resize_mb`: a fresh table of default entries. */
    method ResizeMb(mb: int)
      modifies this
      ensures |t| == SlotCount(mb)
      ensures forall i :: 0 <= i < |t| ==> t[i] == EMPTY_ENTRY
    {
      t := seq(SlotCount(mb), _ => EMPTY_ENTRY);
    }

    /** `clear`: every entry zeroed, the size kept. */
    method Clear()
      modifies this
      ensures |t| == old(|t|)
      ensures forall i :: 0 <= i < |t| ==> t[i] == EMPTY_ENTRY
    {
      t := seq(|t|, _ => EMPTY_ENTRY);
    }

    /** `probe`: on a hit `out` receives the entry; on a miss it keeps its previous value. */
    method Probe(key: U64, out0: Entry) returns (hit: bool, out: Entry)
      ensures hit <==> Lookup(t, key).Some?
      ensures hit ==> out == Lookup(t, key).value
      ensures !hit ==> out == out0
    {
      if |t| == 0 {
        return false, out0;
      }
      var e := t[key % |t|];
      if e.key == key {
        return true, e;
      }
      return false, out0;
    }

    /** `store`. */
    method Store(key: U64, depth: int, score: int, flag: Byte, move: U32)
      modifies this
      ensures t == Stored(old(t), key, depth, score, flag, move)
    {
      if |t| == 0 {
        return;
      }
      var i := key % |t|;
      var e := t[i];
      if e.key != key || depth >= e.depth {
        t := t[i := Entry(key, move, ToI16(score), ToI8(depth), flag)];
      }
    }
  }

  /** After a store the key is found, whatever the table held; a store that replaced the slot
   *  is read back with its score and depth in 16 and 8 bits. */
  lemma StoreThenProbe(t: seq<Entry>, key: U64, depth: int, score: int, flag: Byte, move: U32)
    requires |t| > 0
    ensures Lookup(Stored(t, key, depth, score, flag, move), key).Some?
    ensures t[Slot(key, |t|)].key != key || depth >= t[Slot(key, |t|)].depth ==>
      Lookup(Stored(t, key, depth, score, flag, move), key) == Some(Entry(key, move, ToI16(score), ToI8(depth), flag))
  {
  }

  /** Depth-preferred replacement: an entry for the same key is never overwritten by a
   *  shallower search, and nothing changes. */
  lemma ShallowerStoreKeepsEntry(t: seq<Entry>, key: U64, depth: int, score: int, flag: Byte, move: U32)
    requires Lookup(t, key).Some? && depth < Lookup(t, key).value.depth
    ensures Stored(t, key, depth, score, flag, move) == t
  {
  }

  /** A store touches one slot: every key in another slot probes as before, and a different key
   *  sharing the slot is evicted. */
  lemma StoreFrame(t: seq<Entry>, key: U64, other: U64, depth: int, score: int, flag: Byte, move: U32)
    requires |t| > 0 && other != key
    ensures Slot(other, |t|) != Slot(key, |t|) ==> Lookup(Stored(t, key, depth, score, flag, move), other) == Lookup(t, other)
    ensures Slot(other, |t|) == Slot(key, |t|) ==> Lookup(Stored(t, key, depth, score, flag, move), other) == None
  {
  }

  /** A cleared (or freshly sized) table misses every non-zero key; key 0 meets the zeroed entry. */
  lemma ClearedTableMisses(t: seq<Entry>, key: U64)
    requires |t| > 0 && forall i :: 0 <= i < |t| ==> t[i] == EMPTY_ENTRY
    ensures key != 0 ==> Lookup(t, key) == None
    ensures key == 0 ==> Lookup(t, key) == Some(EMPTY_ENTRY)
  {
  }

  /** The default size of 64 MB holds 2^22 entries. */
  lemma DefaultSize()
    ensures SlotCount(64) == 0x40_0000
  {
  }

  /** `pack_score`/`unpack_score`: mate scores are stored unchanged. */
  function PackScore(score: int, ply: int): int { score }
  function UnpackScore(score: int, ply: int): int { score }

  lemma PackRoundTrip(score: int, ply: int)
    ensures UnpackScore(PackScore(score, ply), ply) == score
  {
  }

  // ---------------------------------------------------------------- zobrist_key_slow

  /** The xor of the piece keys of the first `n` squares. */
  function BoardKey(keys: Keys, board: seq<BoardCode>, n: nat): U64
    requires keys.Sized() && |board| == 64 && n <= 64
    decreases n
  {
    if n == 0 then 0
    else
      var k := BoardKey(keys, board, n - 1);
      if board[n - 1] == EMPTY_CODE then k else Xor64(k, keys.piece[board[n - 1]][n - 1])
  }

  /** The en-passant key index: the file of the target square (`epSq & 7`, which is `epSq % 8`
   *  on a two's-complement int) or 8 when there is none. */
  function EpIndex(epSq: int): (f: nat)
    ensures f < 9
    ensures 0 <= epSq < 64 ==> f == epSq % 8
  {
    if epSq == NO_SQ then 8 else epSq % 8
  }

  /** The key of a position: its pieces, the side key when Black moves, the castling key of the
   *  low four rights bits and the en-passant key. */
  function KeyOf(keys: Keys, board: seq<BoardCode>, stm: Color, castling: Byte, epSq: int): U64
    requires keys.Sized() && |board| == 64
  {
    var k := BoardKey(keys, board, 64);
    var k1 := if stm == BLACK then Xor64(k, keys.side) else k;
    Xor64(Xor64(k1, keys.castle[castling % 16]), keys.ep[EpIndex(epSq)])
  }

  /** The loop of `zobrist_key_slow` once the tables are filled. */
  method KeyFromTables(pos: Position, z: ZobristTables) returns (k: U64)
    requires pos.Ready() && z.Shaped()
    ensures k == KeyOf(z.Contents(), pos.board[..], pos.stm, pos.castling, pos.epSq)
  {
    ghost var keys := z.Contents();
    k := 0;
    var sq := 0;
    while sq < 64
      invariant 0 <= sq <= 64 && k == BoardKey(keys, pos.board[..], sq)
    {
      var c := pos.board[sq];
      if c != EMPTY_CODE {
        assert z.piece[c, sq] == keys.piece[c][sq];
        k := Xor64(k, z.piece[c, sq]);
      }
      sq := sq + 1;
    }
    if pos.stm == BLACK {
      k := Xor64(k, z.side);
    }
    k := Xor64(k, z.castle[pos.castling % 16]);
    var epFile := 8;
    if pos.epSq != NO_SQ {
      epFile := pos.epSq % 8;
    }
    k := Xor64(k, z.ep[epFile]);
  }

  /** `zobrist_key_slow`: fills the private tables on first use, then computes the key from the
   *  splitmix64 draws. */
  method ZobristKeySlow(pos: Position, z: ZobristTables) returns (k: U64)
    requires pos.Ready() && z.Valid()
    modifies z, z.piece, z.castle, z.ep
    ensures z.Valid() && z.inited && z.Filled()
    ensures k == KeyOf(z.Contents(), pos.board[..], pos.stm, pos.castling, pos.epSq)
  {
    z.Init();
    k := KeyFromTables(pos, z);
  }

  /** Putting a piece on an empty square xors its key into the board key: the key can be kept
   *  incrementally. */
  lemma {:induction false} PlacePiece(keys: Keys, board: seq<BoardCode>, sq: nat, c: nat, n: nat)
    requires keys.Sized() && |board| == 64 && sq < 64 && c < 12 && n <= 64 && board[sq] == EMPTY_CODE
    ensures BoardKey(keys, board[sq := c], n) ==
      if sq < n then Xor64(BoardKey(keys, board, n), keys.piece[c][sq]) else BoardKey(keys, board, n)
    decreases n
  {
    if n > 0 {
      PlacePiece(keys, board, sq, c, n - 1);
      var b := board[sq := c];
      if sq < n - 1 && board[n - 1] != EMPTY_CODE {
        var p := keys.piece[board[n - 1]][n - 1];
        var x := keys.piece[c][sq];
        var k := BoardKey(keys, board, n - 1);
        assert b[n - 1] == board[n - 1];
        calc {
          BoardKey(keys, b, n);
          Xor64(BoardKey(keys, b, n - 1), p);
          Xor64(Xor64(k, x), p);
          { XorAssoc(k, x, p); XorComm(x, p); }
          Xor64(k, Xor64(p, x));
          { XorAssoc(k, p, x); }
          Xor64(Xor64(k, p), x);
        }
      }
    }
  }

  /** Changing the side to move xors the side key in or out, and nothing else changes. */
  lemma SideToMoveFlip(keys: Keys, board: seq<BoardCode>, castling: Byte, epSq: int)
    requires keys.Sized() && |board| == 64
    ensures KeyOf(keys, board, BLACK, castling, epSq) == Xor64(KeyOf(keys, board, WHITE, castling, epSq), keys.side)
  {
    var k := BoardKey(keys, board, 64);
    var s, c, e := keys.side, keys.castle[castling % 16], keys.ep[EpIndex(epSq)];
    calc {
      KeyOf(keys, board, BLACK, castling, epSq);
      Xor64(Xor64(Xor64(k, s), c), e);
      { XorAssoc(k, s, c); XorComm(s, c); XorAssoc(k, c, s); }
      Xor64(Xor64(Xor64(k, c), s), e);
      { XorAssoc(Xor64(k, c), s, e); XorComm(s, e); XorAssoc(Xor64(k, c), e, s); }
      Xor64(Xor64(Xor64(k, c), e), s);
    }
  }
}
