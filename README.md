# A verified model of a bitboard chess engine and its SPSA tuner

This project models, in Dafny, the core of a UCI chess engine written in C++ together with
the Python tuning front end (`gui.py`) that drives it.

On the engine side the model covers these parts of the engine:

- the board types and packed 32-bit moves (`types.h`, `move.h`);
- 64-bit bitboard arithmetic (`bitboard.h`);
- the leaper and magic slider attack tables (`attacks.cpp`);
- the mailbox-plus-bitboards position with its `make`, `unmake`, pseudo-legal move generation and attack test (`position.cpp`);
- FEN reading (`fen.cpp`) and UCI move notation: `sq_from_alg` (`fen.cpp`, `search.cpp`), `move_to_uci` (`uci.cpp`) and the string reading of `parse_uci_move` (`search.cpp`);
- static exchange evaluation (`see.cpp`);
- the evaluation terms that are bit-exact integer logic (`eval.cpp`): masks, passed and isolated pawns, rook files, hanging pieces, material, game phase and the tapered blend;
- the Zobrist tables (`zobrist.cpp`) and the transposition table (`tt.cpp`);
- `perft` and `perft_root_mt` (`perft.cpp`);
- the deterministic pieces of the searcher (`search.cpp`): move parsing, the root legality filter, repetition detection, move ordering scores, history decay, mate/WDL scores and the time limits;
- the text protocols of `uci.cpp` and `cli.cpp`: `position`, `setoption`, `go`, the board letters and the millisecond arguments;
- the parameter file reader (`params.cpp`).

On the tuner side the model covers:

- the `info` line parser;
- the parameter file reader and writer and their round trip;
- the default parameter table;
- integer clamping;
- the SPSA perturbation and update steps with their tuned-keys-within-bounds invariant;
- match scoring and a single game of `_play_one_game`.

The model follows the source's form. The position, the attack tables, the magic tables, the
evaluation masks, the Zobrist tables, the transposition table and the search heuristics are
classes. Their fields mirror the C++ members, and their methods update them in place. Each
method is proved against a specification function on values (`PositionSpec`, `MoveGenSpec`,
`PerftSpec`, `Attacks`, `See` and others). Text parsing, the tuner and the protocol parsers are
functions over strings and sequences.

The integer semantics of C++ are written out where they matter:

- 64-bit wrap-around of bitboards and hash keys;
- truncating division in the tapered blend (`Eval.CDiv`);
- `int8_t` and `int16_t` narrowing in the transposition table;
- `std::stoi` and `istream >> int` reads, including what a failed read stores.

Python's `int()`, `str.split()` and `str.strip()` are modelled over their ASCII and Latin-1
whitespace.

The operation models follow the code as written, with the one exception of `perft` named
below. Where the code departs from what its authors evidently meant (see "## Findings"), the
as-written behaviour is modelled and exhibited, and a corrected definition sits beside it with
the intended property proved:

- `See.See` computes the as-written backward pass; `See.Corrected` is the corrected one.
- `Eval.Masks.InitOnce` fills the masks as written; `Eval.Masks.InitCorrected` is the corrected fill.
- `Uci.PlanOf` reads `position` commands as written; `Uci.PlanIntended` is the intended reading.
- `Search.MoveScoreBasic` is the score as written; `Search.MoveScoreCorrected` is the corrected score.
- `Position.Position.Make` keeps a captured corner's castling right, as the source does.
- `Position.Position.MakeCorrected` clears that right. Only `perft` is proved over `MakeCorrected`, as "## Left out" says. Move parsing, the legal-move test and the `position` replay (`Legal`, `Uci.PlayMoves`) call the as-written `Make`.
- `Uci.WrittenCounters` are the FEN counters the book gate of `go` reads after a replay, where the `make` of position.cpp:176-255 never advances the full-move number; `Uci.CountedCounters` advance it. This rests on that text of `make`: position.h as given declares neither the clocks nor the hash key that fen.cpp, uci.cpp and search.cpp use, so the engine's linked `make` is not that text and may advance the counter.

Clocks, threads, randomness, processes and the terminal are parameters or are left out, as
listed below.

## Model

| member | source | states |
|---|---|---|
| `Types.Other` | types.h:21 | `!c` is a colour different from `c` |
| `Types.OtherSwaps` | types.h:21 | `!WHITE == BLACK`, `!BLACK == WHITE`, and `!` is an involution |
| `Types.ConstantRanges` | types.h:7-19 | every piece (`NO_PIECE` included) fits a 3-bit field, `NO_SQ` is off the board, `0 < SCORE_MATE < SCORE_INF` |
| `Moves.FlagsAreDistinctBits` | move.h:8-14 | `MF_EP`, `MF_CASTLE`, `MF_DBLPAWN`, `MF_PROMO` are the single bits 1, 2, 4, 8 and each flag tests positive on itself only |
| `Moves.MoveFrom` | move.h:25 | `m_from` is a square 0..63 |
| `Moves.MoveTo` | move.h:26 | `m_to` is a square 0..63 |
| `Moves.MovePiece` | move.h:27 | `m_piece` is a 3-bit value |
| `Moves.MoveCap` | move.h:28 | `m_cap` is a 3-bit value |
| `Moves.MovePromo` | move.h:29 | `m_promo` is a 3-bit value |
| `Moves.MakeMove` | move.h:16-23 | every accessor returns its own argument masked to its field width (`from & 63`, …, `flags`), and bits 29-31 stay clear |
| `Moves.RepackMove` | move.h:16-30 | unpacking a move and packing its six fields again gives the same move |
| `Moves.MoveFieldsDetermineMove` | move.h:16-30 | two moves are equal iff all six fields are equal, so fields are disjoint and packing is injective |
| `Moves.MoveNonZero` | move.h:16-23 | a move with `from != to` is never the null move 0 |
| `Bitboards.SqBB` | bitboard.h:9 | `sq_bb(sq)` has exactly the square `sq` set |
| `Bitboards.FileOf` | bitboard.h:10 | `sq & 7` lies in 0..7 and equals `sq - 8 * rank_of(sq)` on every integer |
| `Bitboards.RankOf` | bitboard.h:11 | `sq >> 3` is the floor of `sq / 8` on every integer |
| `Bitboards.FileRankOfSquare` | bitboard.h:10-11 | for a square, the rank lies in 0..7 and `rank * 8 + file == sq` |
| `Bitboards.Ctz` | bitboard.h:13-21 | for `x != 0`, bit `ctz64(x)` of `x` is set |
| `Bitboards.CtzLowest` | bitboard.h:13-21 | no bit below `ctz64(x)` is set |
| `Bitboards.Popcount` | bitboard.h:23-29 | `popcount64(x)` is the number of set squares |
| `Bitboards.HasClearLowest` | bitboard.h:33 | `x & (x - 1)` clears exactly the lowest set bit |
| `Bitboards.PopLsb` | bitboard.h:31-35 | returns the lowest set square, clears exactly that square, and the popcount drops by one |
| `Bitboards.SquareListSpec` | bitboard.h:31-35 | repeated `pop_lsb` visits every set square, only set squares, in strictly increasing order |
| `Bitboards.SquareListLength` | bitboard.h:31-35 | repeated `pop_lsb` makes exactly popcount steps, so each square is visited once |
| `PositionSpec.Code` | position.h:9 | `code(c, p)` lies in 0..11, so no piece gets the `EMPTY_CODE` entry |
| `PositionSpec.CodePiece` | position.h:10 | `code_piece` of a piece's code gives back that piece |
| `PositionSpec.EmptyCodeDecodesPawn` | position.h:7-10 | `EMPTY_CODE` (12) is no piece's code, yet `code_piece(12) == PAWN`, so callers must test for the empty entry first |
| `PositionSpec.CodeInjective` | position.h:9 | different colour/piece pairs get different codes |
| `PositionSpec.UnionOfSquares` | position.cpp:13-16 | a square is in the running union of a colour's piece boards iff one of the boards holds it |
| `PositionSpec.RebuildOcc` | position.cpp:11-18 | `rebuild_occ` changes only `occ[WHITE]`, `occ[BLACK]` and `occAll` |
| `PositionSpec.RebuildOccSquares` | position.cpp:11-18 | after `rebuild_occ`, a colour's occupancy is the union of its six piece boards and `occAll` the union of both colours |
| `PositionSpec.AgreeDetermines` | position.h:19-27 | when mailbox and piece boards agree, the mailbox determines the piece boards |
| `PositionSpec.Flip` | position.cpp:195 | `bb[..][..] ^= sq_bb(sq)` leaves the board list's length unchanged |
| `PositionSpec.FlipSquares` | position.cpp:195 | the xor toggles square `sq` of piece board `i` and leaves every other board as it was |
| `PositionSpec.FlipAgree` | position.cpp:193-235 | taking a piece off, or putting one on an empty square, on both mailbox and piece board keeps them in agreement |
| `PositionSpec.MaskBits` | position.cpp:239-246 | the low four bits of `uint8_t(~(WK\|WQ))`, `~WQ` and the other masks are the expected bits |
| `PositionSpec.CornerRightsHas` | position.cpp:242-247 | a rook leaving a corner clears exactly that corner's right |
| `PositionSpec.RightsAsWrittenHas` | position.cpp:237-247 | a right survives `make` as written iff its king did not move and its rook did not leave its corner |
| `PositionSpec.RightsHas` | position.cpp:237-247 | a right survives the corrected update iff its king did not move, its rook did not leave its corner and nothing was captured on its corner |
| `PositionSpec.MakeBoard` | position.cpp:193-235 | the mailbox half of `make` keeps 64 entries, each an entry code |
| `PositionSpec.MakeBitboards` | position.cpp:193-235 | the bitboard half of `make` keeps twelve boards |
| `PositionSpec.Moved` | position.cpp:176-253 | `make` before the rebuild: king square moved on a king move, rights as given, ep square only after a double push, side to move passed |
| `PositionSpec.MakeAgrees` | position.cpp:237-247 | `make` as written and the corrected `make` give the same position for every move that is not an ordinary capture on a1, h1, a8 or h8 |
| `PositionSpec.UnmakeBoard` | position.cpp:272-314 | the mailbox half of `unmake` keeps 64 entry codes |
| `PositionSpec.UnmakeBitboards` | position.cpp:272-314 | the bitboard half of `unmake` keeps twelve boards |
| `PositionSpec.Unmoved` | position.cpp:257-316 | `unmake` before the rebuild: side passed back, rights and ep square from the undo record, king square back on a king move |
| `PositionSpec.MakeMailbox` | position.cpp:193-235 | after `make` the target holds the placed piece, the origin and an ep victim's square are empty, a castling rook has moved, all else is unchanged, and the recorded capture is the taken piece |
| `PositionSpec.MakeAgree` | position.cpp:193-235 | `make` keeps the mailbox and the piece boards in agreement |
| `PositionSpec.RebuildOccValid` | position.cpp:11-18 | rebuilding the occupancy of agreeing boards gives a consistent position |
| `PositionSpec.MakeValid` | position.cpp:176-255 | `make` keeps mailbox, piece boards and occupancy consistent, whatever rights it writes |
| `PositionSpec.UnmakeBoardRestores` | position.cpp:272-314 | `unmake` brings the mailbox back square for square |
| `PositionSpec.UnmakeAgree` | position.cpp:272-314 | the mailbox and piece boards `unmake` produces agree |
| `PositionSpec.UnmakeRestores` | position.cpp:257-320 | `unmake` restores every field of a consistent position from the position `make` left and the undo record |
| `PositionSpec.MakeUnmake` | position.cpp:176-320 | `unmake(make(s, m))` is `s` for every fitting move, with the rights update as written or corrected |
| `PositionSpec.MakeKeepsRightsBacked` | position.cpp:237-247 | with the corrected rights update, every right still held has its rook on its corner after `make` |
| `PositionSpec.RightsAsWrittenLosesRook` | position.cpp:237-247 | as written, capturing a rook on its corner keeps its right, so the position holds a right with no rook behind it |
| `PositionSpec.UnmakeConjuresRook` | position.cpp:209-227 | a castle made with no rook on its corner is not undone: `unmake` writes a rook into the corner, so the position does not come back |
| `PositionSpec.UnmakeRestoresCorner` | position.cpp:284-302 | undoing a castle that captured nothing puts the mover's rook on its corner |
| `Position.EmptyState` | position.cpp:7-9 | the constructor's position: every square empty, no piece on any board |
| `Position.EmptyValid` | position.cpp:7-9 | the empty position is consistent |
| `Position.PawnTest` | position.cpp:22-26 | a pawn of `by` attacks `sq` iff it stands where the other side's pawn table from `sq` points |
| `Position.KnightTest` | position.cpp:28 | the knight table from `sq` meets a knight of `by` iff that knight attacks `sq` |
| `Position.KingTest` | position.cpp:29 | the king table from `sq` meets the king of `by` iff it attacks `sq` |
| `Position.SliderTest` | position.cpp:31-35 | the slider attacks from `sq` meet a bishop/rook or queen of `by` iff that piece attacks `sq` over `occAll` |
| `Position.CopyArray` | position.h:19-27 | the array copy holds the source's elements |
| `Position.Position.constructor` | position.cpp:7-9 | `Position()`: the empty position, White to move, clocks 0 and 1 |
| `Position.Position.Copy` | perft.cpp:31 | the copy constructor gives fresh arrays with the same contents |
| `Position.Position.Assign` | fen.cpp:107 | copy assignment: this position takes `src`'s state and clocks |
| `Position.Position.RebuildOccupancy` | position.cpp:11-18 | the state after the method is `RebuildOcc` of the state before |
| `Position.Position.IsAttacked` | position.cpp:20-38 | `is_attacked(sq, by)` is true iff some piece of `by` attacks `sq` in the position |
| `Position.Position.AttackTests` | position.cpp:22-35 | the five tests in the source's order, each true iff a piece of the kinds it looks for attacks `sq` |
| `Position.Position.GenPseudo` | position.cpp:40-174 | `gen_pseudo` produces exactly the move list of the generator specification, in its order |
| `Position.Position.GenPawns` | position.cpp:47-93 | the pawn loop appends the pawn moves of every pawn, lowest square first |
| `Position.Position.GenPawnPushes` | position.cpp:55-72 | single push, double push from the start rank, or the four promotions from the rank before the last |
| `Position.Position.GenPawnEp` | position.cpp:88-92 | the en-passant capture is appended iff the ep square is one the pawn attacks |
| `Position.Position.GenPawnCaptures` | position.cpp:74-86 | one capture (or four promotion captures) per attacked enemy piece, lowest square first |
| `Position.Position.GenPieces` | position.cpp:95-141 | every knight, bishop, rook or queen moves to each square it attacks that its side does not occupy |
| `Position.Position.GenKing` | position.cpp:144-151 | the king's steps to squares its side does not occupy |
| `Position.Position.GenCastles` | position.cpp:153-172 | a castle is appended iff the right is held, the squares between are empty and the king's three squares are not attacked; king side first |
| `Position.Position.Make` | position.cpp:176-255 | the new state and undo record are `PositionSpec.Make` of the old state, the rights updated as written |
| `Position.Position.MakeCorrected` | position.cpp:176-255 | the same with a capture on a corner also clearing that corner's right |
| `Position.Position.MovePieces` | position.cpp:193-235 | the piece boards and mailbox become `MakeBitboards`/`MakeBoard` of the old state |
| `Position.Position.Unmake` | position.cpp:257-320 | the new state is `PositionSpec.Unmake` of the old state, move and undo record |
| `Attacks.SquareCoords` | attacks.cpp:421 | every square is on the board at its own file and rank, and is `rank * 8 + file` |
| `Attacks.SqAtCoords` | attacks.cpp:426 | the square `r * 8 + f` of an on-board (f, r) has file `f` and rank `r` |
| `Attacks.KnightIndex` | attacks.cpp:431-432 | every knight jump appears in `dfN`/`drN`, at a position below 8 |
| `Attacks.KnightTable` | attacks.cpp:431-432 | each of the eight table entries is a knight jump, found at its own position |
| `Attacks.PawnTargetsShape` | attacks.cpp:426-429 | a pawn attacks exactly the forward diagonals (up for White, down for Black) that are on the board |
| `Attacks.PawnTargetsSides` | attacks.cpp:426-429 | the pawn entry is the union of the two forward diagonal squares, each kept when on the board |
| `Attacks.PawnFrom` | attacks.cpp:423-429 | the pawn entry built for a square and colour holds exactly the squares that pawn attacks |
| `Attacks.KnightTargetsStep` | attacks.cpp:434-437 | trying offset `i` adds exactly the square it lands on, when on the board |
| `Attacks.KnightFrom` | attacks.cpp:433-438 | the knight entry holds exactly the on-board squares a knight jump away |
| `Attacks.KingTargetsStep` | attacks.cpp:441-447 | visiting offset (df, dr) adds exactly its square when it is a king step on the board |
| `Attacks.KingFrom` | attacks.cpp:440-448 | the king entry holds exactly the eight neighbours that are on the board |
| `Attacks.RayWalk` | attacks.cpp:169-188 | one ray loop ors in the squares along the direction up to and including the first occupied one, stopping at the edge |
| `Attacks.RayStep` | attacks.cpp:169-173 | one iteration moves the square from the rest of the ray into the result; the loop breaks exactly on an occupied square |
| `Attacks.RayFromEnd` | attacks.cpp:169 | a walk that starts off the board adds nothing |
| `Attacks.RookAttacksSlow` | attacks.cpp:166-190 | `rook_attacks_slow` returns exactly the squares a rook reaches along its file and rank, blockers included |
| `Attacks.BishopAttacksSlow` | attacks.cpp:192-216 | `bishop_attacks_slow` returns exactly the squares a bishop reaches along its four diagonals, blockers included |
| `Attacks.MaskWalk` | attacks.cpp:221-224 | one mask loop ors in every square of the direction except the last one before the edge |
| `Attacks.MaskFromStep` | attacks.cpp:221 | one iteration moves a square from the mask still to come into the mask built |
| `Attacks.MaskFromEnd` | attacks.cpp:221 | the mask walk ends where the next square is off the board |
| `Attacks.RookRelevantMask` | attacks.cpp:218-226 | `rook_relevant_mask` is the rook's file and rank without the edge squares |
| `Attacks.BishopRelevantMask` | attacks.cpp:228-236 | `bishop_relevant_mask` is the bishop's diagonals without the edge squares |
| `Attacks.RayFromRelevant` | attacks.cpp:169-188 | a ray depends only on the occupancy of its mask squares, since the last square before the edge ends it either way |
| `Attacks.SliderRelevant` | attacks.cpp:454-464 | slider attacks depend only on the occupancy inside the relevant mask, which is what lets the tables index by `occ & mask` |
| `Attacks.MaskFromGrow` | attacks.cpp:221 | each step of the mask walk adds one square and uses one square of room |
| `Attacks.RoomTotals` | attacks.cpp:161-162 | the four rook rays leave room for at most 12 squares, the four bishop rays for 9 |
| `Attacks.RookMaskSize` | attacks.cpp:161 | a rook mask has at most 12 squares, so 4096 slots per square are enough |
| `Attacks.BishopMaskSize` | attacks.cpp:162 | a bishop mask has at most 9 squares, so 512 slots per square are enough |
| `Attacks.PawnSymmetric` | position.cpp:22-26 | a pawn of colour `c` on `f` attacks `t` iff a pawn of the other colour on `t` attacks `f`: the reverse lookup `is_attacked` relies on |
| `Attacks.KnightSymmetric` | position.cpp:28 | a knight on `f` attacks `t` iff a knight on `t` attacks `f` |
| `Attacks.KingSymmetric` | position.cpp:29 | a king on `f` attacks `t` iff a king on `t` attacks `f` |
| `Attacks.RayFlip` | position.cpp:34-35 | reaching `t` from `sq` in one direction means reaching `sq` from `t` in the opposite one |
| `Attacks.SliderSymmetric` | position.cpp:34-35 | a slider on `f` attacks `t` iff the same slider on `t` attacks `f`, for any occupancy |
| `Attacks.LeaperTables.constructor` | attacks.cpp:7 | the global `ATK` starts zeroed with the right table sizes |
| `Attacks.LeaperTables.Init` | attacks.cpp:419-449 | after `Attacks::init`, every pawn, knight and king entry holds exactly the squares that piece attacks |
| `Magics.WidthPow2` | attacks.cpp:161-162 | `1 << bits` slots fit a table row for every possible mask size |
| `Magics.Slot` | attacks.cpp:276 | `(occ * magic) >> shift` on 64-bit wrap-around is below `2^(64 - shift)` |
| `Magics.MaskSquares` | attacks.cpp:259-262 | the `squares` array lists the mask's squares in `pop_lsb` order |
| `Magics.SubsetOf` | attacks.cpp:271-274 | the inner loop ors in `squares[b]` for exactly the set bits `b` of `idx` |
| `Magics.IndexOf` | attacks.cpp:270-274 | every occupancy of the listed squares has an index below `2^n` |
| `Magics.IndexOfSelects` | attacks.cpp:270-274 | the enumeration reaches every occupancy: index `IndexOf` selects exactly the part of `occ` on the listed squares |
| `Magics.IndexOfMask` | attacks.cpp:270-274 | for a mask's own squares the enumerated occupancy is `occ & mask` |
| `Magics.ClaimDone` | attacks.cpp:270-280 | once every index has claimed its slot without a clash there is no collision |
| `Magics.HoldsDone` | attacks.cpp:270-280 | a finished local table answers every enumerated occupancy with its slow attacks |
| `Magics.ClaimCollides` | attacks.cpp:277 | a filled slot holding other attacks than the current index's is a collision |
| `Magics.TryMagic` | attacks.cpp:266-280 | the fill loop succeeds iff no two occupancies with different attacks share a slot, and on success each slot holds the slow attacks of its occupancies |
| `Magics.Record` | attacks.cpp:278-279 | `filled[key] = 1; local[key] = att` changes exactly that slot |
| `Magics.FindMagic` | attacks.cpp:306-369 | the result is the first candidate that spreads the high byte (popcount at least 6) and has no collision, or 0 when none does |
| `Magics.MagicLookup` | attacks.cpp:454-464 | for any occupancy, the slot of `occ & mask` is that of an enumerated occupancy whose slow attacks equal the slider's attacks on `occ` |
| `Magics.PrepareEntry` | attacks.cpp:375-386 | an entry with the relevant mask and shift `64 - popcount(mask)` is ready for table building with any magic |
| `Magics.NewEntry` | attacks.cpp:376-386 | one square's entry of the first loop: relevant mask, shift `64 - popcount`, built-in magic |
| `Magics.AnswersFromLocal` | attacks.cpp:283 | a row that agrees with the local table on every slot below `2^bits` answers as the local table does |
| `Magics.CopyRow` | attacks.cpp:283 | the copy loop sets the first `size` slots of row `sq` to the local table and changes nothing else |
| `Magics.MagicTables.constructor` | attacks.cpp:153-164 | the zero-initialised statics, with `magics_ready` false |
| `Magics.MagicTables.BuildTable` | attacks.cpp:252-304 | `build_table_for_square` returns true iff the magic has no collision, and then row `sq` answers every occupancy; otherwise no row changes |
| `Magics.MagicTables.SetUp` | attacks.cpp:392-411 | one slider and square of the second loop: the built-in magic is kept when it has no collision, else the magic becomes an accepted candidate or 0; the square is served either way |
| `Magics.MagicTables.Fallback` | attacks.cpp:393-400 | the replacement search records an accepted candidate and builds its row, or records 0 |
| `Magics.MagicTables.PrepareEntries` | attacks.cpp:375-387 | the first loop of `init_magics` gives every square its fresh rook and bishop entry |
| `Magics.MagicTables.BuildAll` | attacks.cpp:391-412 | after the second loop every square of both sliders is served by its table or by the slow walk |
| `Magics.MagicTables.InitMagics` | attacks.cpp:371-415 | `init_magics` sets `magics_ready`, does nothing when already ready, and keeps every built-in magic that has no collision |
| `Magics.MagicTables.SliderAttacks` | attacks.cpp:454-464 | `rook_attacks`/`bishop_attacks` return exactly the slow walk's squares, before and after the tables are ready |
| `Magics.MagicTables.RookAttacks` | attacks.cpp:454-458 | `rook_attacks(sq, occ)` is exactly the rook's reach over `occ` |
| `Magics.MagicTables.BishopAttacks` | attacks.cpp:460-464 | `bishop_attacks(sq, occ)` is exactly the bishop's reach over `occ` |
| `MoveGenSpec.AttackedMailbox` | position.cpp:20-38 | in a consistent position the attack test over the piece boards and over the mailbox agree |
| `MoveGenSpec.AttackedCases` | position.cpp:20-38 | any attack on a square comes from one of the six piece kinds |
| `MoveGenSpec.SquareListOrdered` | position.cpp:49-50 | the squares `pop_lsb` visits are the board's squares in increasing order |
| `MoveGenSpec.PawnCapturesStep` | position.cpp:75-86 | one capture-loop step appends the captures onto one more square |
| `MoveGenSpec.PawnsGenStep` | position.cpp:49-93 | one pawn-loop step appends what one more pawn generates |
| `MoveGenSpec.PiecesGenStep` | position.cpp:97-105 | one piece-loop step appends what one more piece generates |
| `MoveGenSpec.OccupancyMailbox` | position.cpp:11-18 | in a consistent position a colour's occupancy holds exactly the squares with a piece of that colour |
| `MoveGenSpec.PlainFits` | position.cpp:55-151 | a move without the ep or castle flag whose mover stands on `from` and whose target holds what it names is pseudo-legal |
| `MoveGenSpec.PawnCaptureFits` | position.cpp:76-84 | a pawn capture names the enemy piece standing on its target |
| `MoveGenSpec.PawnEpFits` | position.cpp:88-92 | the en-passant capture takes the pawn that passed over the ep square, standing beside the capturing pawn |
| `MoveGenSpec.TargetMovesFit` | position.cpp:99-103 | a piece move lands on a square its side does not hold, so it is a quiet move or a capture of the enemy piece there |
| `MoveGenSpec.CodeSplit` | position.h:9-10 | a board entry other than `EMPTY_CODE` is the code of its own colour and piece |
| `MoveGenSpec.CastleFits` | position.cpp:153-172 | a castle whose right is held moves the king from its home square past empty squares, with the rook on its corner |
| `MoveGenSpec.GenFits` | position.cpp:40-174 | every move `gen_pseudo` produces in a coherent position is pseudo-legal there |
| `MoveGenSpec.GenMakeUnmake` | position.cpp:40-320 | every generated move fits, the corrected `make` leaves a consistent position and `unmake` restores the original exactly |
| `MoveGenSpec.KingGenHas` | position.cpp:144-151 | every square the king can step to gives a generated king move |
| `MoveGenSpec.PiecesGenComplete` | position.cpp:95-141 | every square a knight, bishop, rook or queen can move to gives a generated move of that piece |
| `MoveGenSpec.GenComplete` | position.cpp:95-151 | every square a knight, bishop, rook, queen or king attacks and its own side does not hold gives a generated move |
| `MoveGenSpec.PawnMoveGenerated` | position.cpp:47-93 | every move of one pawn of the side to move is in the generated list |
| `MoveGenSpec.PawnPushGenerated` | position.cpp:57-64 | a push onto the empty square ahead is generated: a quiet move, or every promotion from the rank before the last |
| `MoveGenSpec.PawnDoubleGenerated` | position.cpp:65-70 | the double push from the starting rank over two empty squares is generated |
| `MoveGenSpec.PawnCaptureGenerated` | position.cpp:74-86 | a capture of an enemy piece the pawn attacks is generated: a plain capture, or every promotion capture from the rank before the last |
| `MoveGenSpec.PawnEpGenerated` | position.cpp:88-92 | the en-passant capture onto the recorded square is generated when the pawn attacks it |
| `MoveGenSpec.CastleFires` | position.cpp:155-157 | a castle whose right is held, whose squares are empty and whose king squares are not attacked produces exactly its move |
| `MoveGenSpec.WhiteShortGenerated` | position.cpp:155-158 | e1g1 is generated when the right is held, f1 and g1 are empty and none of e1, f1, g1 is attacked |
| `MoveGenSpec.WhiteLongGenerated` | position.cpp:159-162 | e1c1 is generated when the right is held, d1, c1, b1 are empty and none of e1, d1, c1 is attacked |
| `MoveGenSpec.BlackShortGenerated` | position.cpp:164-167 | e8g8 is generated when the right is held, f8 and g8 are empty and none of e8, f8, g8 is attacked |
| `MoveGenSpec.BlackLongGenerated` | position.cpp:168-171 | e8c8 is generated when the right is held, d8, c8, b8 are empty and none of e8, d8, c8 is attacked |
| `Fen.LetterPiece` | fen.cpp:33-41 | a letter names a piece iff it is one of `PNBRQKpnbrqk` |
| `Fen.Put` | fen.cpp:15-19 | `set_piece` writes the mailbox entry, adds the square to that piece's board, moves the king square for a king, and changes nothing else |
| `Fen.Place` | fen.cpp:26-45 | the placement loop stops on a space or the end and changes only pieces and king squares |
| `Fen.WordEnd` | fen.cpp:53 | the skip stops at the first space at or after `i`, or the end |
| `Fen.SpacesEnd` | fen.cpp:86 | the skip stops at the first non-space at or after `i`, passing only spaces |
| `Fen.CastleBit` | fen.cpp:62-67 | a castling letter's right is a four-bit mask |
| `Fen.CastleScan` | fen.cpp:61-69 | the castling loop ends at the field's end with a four-bit mask |
| `Fen.DigitScan` | fen.cpp:90-92 | the clock loop never moves back and never lowers the value |
| `Fen.Parse` | fen.cpp:21-109 | an accepted FEN gives a position with rebuilt occupancy, a four-bit castling mask, an ep square on the board or `NO_SQ`, and clocks within their clamps |
| `Fen.ParseSide` | fen.cpp:50-55 | an accepted side field starts with `w` or `b`, which decides the side to move; pieces are unchanged |
| `Fen.ParseCastling` | fen.cpp:57-72 | an accepted castling field gives 0 for `-`, else the or of its letters' bits |
| `Fen.ParseEp` | fen.cpp:74-82 | the ep field changes only the ep square |
| `Fen.ParseClocks` | fen.cpp:85-104 | the clocks change no board field other than the rebuilt occupancy |
| `Fen.CastleBitHas` | fen.cpp:62-67 | bit `b` of a letter's right is set iff the letter is the `K`, `Q`, `k`, `q` of that bit |
| `Fen.CastleScanHas` | fen.cpp:61-69 | the loop grants a right iff its letter appears before the next space; other characters are ignored |
| `Fen.CastlingFieldRights` | fen.cpp:57-72 | an accepted castling field grants a right iff the field is not `-` and holds the right's letter |
| `Fen.PlaceEmptyRanks` | fen.cpp:29-30 | a placement field made of `/` and digits places nothing |
| `Fen.SetPiece` | fen.cpp:15-19 | the procedure leaves the position `Put` describes |
| `Fen.PlacePieces` | fen.cpp:26-45 | the placement loop from a8 leaves the position `Place` describes, or reports the bad letter |
| `Fen.LoadFen` | fen.cpp:21-109 | `load_fen` returns true iff the string is accepted; then `out` holds the parsed position and clocks, otherwise `out` is untouched |
| `Notation.SqFromAlg` | fen.cpp:6-13 | a square comes back iff the string is a file `a`..`h` then a rank `1`..`8`, else `NO_SQ` |
| `Notation.SquareName` | uci.cpp:14-18 | the name of a square is a file letter and a rank digit |
| `Notation.SqFromAlgName` | search.cpp:101-107 | reading a square's name gives the square back |
| `Notation.NameOfSqFromAlg` | search.cpp:101-107 | every string `sq_from_alg` accepts is the name of the square it reads |
| `Notation.PromoLetter` | uci.cpp:20-29 | the promotion letter is one of `n`, `b`, `r`, `q` |
| `Notation.MoveToUci` | uci.cpp:13-32 | `move_to_uci` writes five characters for a promotion, four otherwise |
| `Notation.PromoFromLetter` | search.cpp:123-130 | the fifth character requests a knight to queen, or no promotion |
| `Notation.RequestedPromo` | search.cpp:123-130 | a string shorter than five characters requests no promotion |
| `Notation.MoveToUciReadsBack` | search.cpp:117-130 | reading back what `move_to_uci` writes gives the move's origin, target and promotion piece |
| `Legal.SameKingTest` | search.cpp:143-148 | the king test after `make` gives the same verdict whichever rights update `make` uses |
| `Legal.GenWrittenRoundTrip` | search.cpp:145-148 | in a coherent position every generated move is made and unmade exactly by the as-written `make` |
| `Legal.MadeUndoable` | position.cpp:176-320 | `make` passes the move to the other side and leaves a position its `unmake` can take back |
| `Legal.Back` | search.cpp:145-147 | make then unmake keeps the side to move, rights and ep square, and puts a moved king back on its origin; a move that round-trips gives the position back exactly |
| `Legal.MadeReady` | position.cpp:176-255 | when the side to move has its king, a move the generator can pack is made without leaving the arrays; the other side then moves, its king is unmoved and the mover's king is on the board |
| `Legal.BackReady` | search.cpp:145-147 | make then unmake keeps the king of the side to move on the board |
| `Legal.Generate` | search.cpp:131-132 | `gen_pseudo` on the position gives the generator specification's list, and every move in it can be made |
| `Legal.TryMove` | search.cpp:143-148 | make, king test and unmake answer whether the mover's king is safe after the move, leave the position `Back` gives and keep the clocks |
| `Legal.ApplyWritten` | search.cpp:146 | the as-written `make` on the position, clocks untouched |
| `Legal.ParseRun` | search.cpp:133-151 | the loop from index `i` answers 0 or a later listed move with the requested origin, target and promotion, and keeps the side to move, the ep square and the opponent's king |
| `Legal.ParseWritten` | search.cpp:117-153 | as written, `parse_uci_move` keeps the side to move, the ep square and the opponent's king, whatever it answers |
| `Legal.ParseWrittenSound` | search.cpp:117-153 | a non-zero answer comes from a string of four characters or more and is a generated move with the origin, target and promotion the string requests |
| `Legal.ParseRunRoundTrip` | search.cpp:133-151 | when every listed move round-trips, the loop answers the first listed move that matches and is legal, and leaves the position as it was |
| `Legal.ParseWrittenCoherent` | search.cpp:117-153 | in a coherent position `parse_uci_move` answers the clean reading `ParseSpec` and leaves the position as it was |
| `Legal.ParseUciMove` | search.cpp:117-153 | on any position whose side to move has a king, `parse_uci_move` answers and leaves what `ParseWritten` gives, clocks untouched |
| `Legal.ParseScan` | search.cpp:133-151 | the loop answers and leaves what `ParseRun` gives from the first move |
| `Legal.ParseOne` | search.cpp:143-149 | one matching turn of the loop: a legal move ends the loop with the position `unmake` left, otherwise the loop goes on from there |
| `Legal.FirstMatchSound` | search.cpp:133-151 | the loop's answer is 0 or a move of the list that matches and is legal |
| `Legal.FirstMatchFinds` | search.cpp:133-151 | when some listed move matches and is legal, the answer is not 0 |
| `Legal.ParseSound` | search.cpp:117-153 | in a coherent position a non-zero answer is a generated legal move with the requested origin, target and promotion |
| `Legal.GenNonZero` | position.cpp:40-174 | no generated move is the null move 0 |
| `Legal.ParseReadsMoveToUci` | search.cpp:117-153 | in a coherent position the string `move_to_uci` writes for a legal generated move parses back to a legal move with the same origin, target and promotion |
| `Legal.AnyInMeans` | cli.cpp:39-47 | the scan finds a legal move iff the list holds one |
| `Legal.AnyInGen` | cli.cpp:36-48 | scanning the generated list is asking whether a legal move exists |
| `Legal.AnyRun` | cli.cpp:39-47 | the loop from index `i` keeps the side to move, the ep square and the opponent's king |
| `Legal.AnyRunRoundTrip` | cli.cpp:39-47 | when every listed move round-trips, the loop answers whether a later listed move is legal and leaves the position as it was |
| `Legal.AnyWritten` | cli.cpp:36-48 | as written, `has_any_legal_move` keeps the side to move, the ep square and the opponent's king |
| `Legal.AnyWrittenCoherent` | cli.cpp:36-48 | in a coherent position `has_any_legal_move` answers whether a legal move exists and leaves the position as it was |
| `Legal.GenCanRoundTrip` | position.cpp:40-320 | in a coherent position every generated move can be made and round-trips |
| `Legal.ScanOne` | cli.cpp:40-46 | one turn of the loop: a legal move ends it with the position `unmake` left, otherwise the loop goes on from there |
| `Legal.HasAnyLegalMove` | cli.cpp:36-48 | on any position whose side to move has a king, `has_any_legal_move` answers and leaves what `AnyWritten` gives, clocks untouched |
| `Legal.Scan` | cli.cpp:39-47 | the loop answers and leaves what `AnyRun` gives from the first move |
| `Legal.AnyLegalIffParsable` | cli.cpp:36-48 | in a coherent position a legal move exists iff some string parses to a non-zero move |
| `MoveGenSpec.PackedCanMake` | move.h:16-23 | a move packed with real pieces and a flag the generator uses can be made, given the squares its flag needs |
| `MoveGenSpec.PromotionsCanMake` | position.cpp:59-62 | the four promotions of a pawn can be made |
| `MoveGenSpec.PawnPushesCanMake` | position.cpp:55-71 | a pawn push can be made: a double push passes over a square on the board |
| `MoveGenSpec.PawnCapturesCanMake` | position.cpp:74-86 | every pawn capture can be made |
| `MoveGenSpec.PawnEpCanMake` | position.cpp:88-92 | the en-passant capture can be made: its victim stands on the board |
| `MoveGenSpec.PawnsGenCanMake` | position.cpp:47-93 | every pawn move the generator produces can be made |
| `MoveGenSpec.TargetMovesCanMake` | position.cpp:99-103 | every knight, bishop, rook, queen or king move can be made |
| `MoveGenSpec.PiecesGenCanMake` | position.cpp:95-151 | every piece move the generator produces can be made |
| `MoveGenSpec.CastleGenCanMake` | position.cpp:153-172 | every castle can be made |
| `MoveGenSpec.GenCanMake` | position.cpp:40-174 | every move `gen_pseudo` produces can be made in any position whose side to move has a king, coherent or not |
| `MoveGenSpec.CanMakeDefined` | position.cpp:176-255 | a move that can be made stays inside `make`'s arrays in any position with its side to move |
| `See.SeeVal` | see.cpp:6-9 | piece values lie in 100..20000 and only a pawn is worth 100 |
| `See.SeeValRises` | see.cpp:6-9 | values rise strictly from pawn to king, the order attackers are tried in |
| `See.AttackersAttack` | see.cpp:11-24 | the reverse lookups find exactly the pieces of `c` that attack `to` over `occ` |
| `See.AttackersGrouped` | see.cpp:14-22 | the same set grouped as `attackers_to` builds it: bishops with queens on diagonals, rooks with queens on lines |
| `See.AttackersTo` | see.cpp:11-24 | `attackers_to(sq, occ, pieces, c)` holds exactly the pieces of `c` attacking `sq` |
| `See.OwnBoard` | see.cpp:104-105 | the or of `c`'s six boards holds exactly `c`'s pieces |
| `See.LeastKindSpec` | see.cpp:28-39 | the kind found has a piece among the attackers and no kind tried before it has |
| `See.LeastKindNone` | see.cpp:40 | with no attacker no kind is found |
| `See.LeastKindCheapest` | see.cpp:26-41 | the chosen attacker is the cheapest available: no kind worth less attacks |
| `See.LeastSpec` | see.cpp:31 | the square found is the least attacker square of that kind, or -1 when there is none |
| `See.PopLeastValuable` | see.cpp:26-41 | `pop_least_valuable_attacker` takes the lowest square of the least valuable attacking kind off both `att` and that kind's board, or returns -1 and changes nothing |
| `See.Exchange` | see.cpp:101-130 | the capture sequence has at most 30 captures |
| `See.Victims` | see.cpp:99-122 | one victim per capture |
| `See.Gains` | see.cpp:88-113 | one gain entry per capture plus the first, which is `first` |
| `See.GainsAreBalances` | see.cpp:113 | gain entry `k` is the material balance seen from the side that made capture `k` |
| `See.CorrectedFrom` | see.cpp:133 | the corrected (min) backward pass computes the minimax value of the exchange from the side that made capture `i` |
| `See.CorrectedIsGameValue` | see.cpp:133-134 | the corrected SEE is the minimax value of the exchange for the side making the move |
| `See.BackwardNeverBelowFirst` | see.cpp:133-134 | as written (max), the result is never below the first gain |
| `See.SeeOverstates` | see.cpp:133 | queen takes a pawn defended by a pawn: gains [100, 800], as written +100, while the exchange is worth -800 |
| `See.AfterMove` | see.cpp:57-83 | the local copies after the move keep twelve boards |
| `See.ExchangeGainList` | see.cpp:88-130 | the gain list has 1 to 31 entries and starts with the captured piece's value, or a pawn's for a quiet promotion |
| `See.SeeAtLeastVictim` | see.cpp:43-135 | as written, SEE of any capture or promotion is at least the first gain, so `see_ge(pos, m, 0)` always holds |
| `See.SeeCorrectedIsGameValue` | see.cpp:43-135 | with the min pass, SEE is the minimax value of the capture sequence on `to` |
| `See.CorrectedBelowBackward` | see.cpp:133 | the corrected value never exceeds the as-written one |
| `See.ExchangeStep` | see.cpp:101-128 | one turn: the side to move captures with the lowest square of its cheapest attacking kind, which leaves its board and the occupancy, and the other side moves next |
| `See.ExchangeLimit` | see.cpp:129 | the exchange stops after 30 captures, so the 32-entry gain array is never overrun |
| `See.ExchangeEnd` | see.cpp:106 | the exchange stops when the side to move has no attacker left |
| `See.CaptureTurn` | see.cpp:102-128 | one loop turn: no attacker ends the exchange; otherwise the capturing kind heads the rest of the exchange |
| `See.ExchangeGains` | see.cpp:88-130 | the loop fills `gain[0..d]` with the gain list of the whole exchange |
| `See.BackwardPass` | see.cpp:133 | the backward loop leaves `gain[0]` equal to the as-written (max) fold of the gain list |
| `See.PlayOnCopies` | see.cpp:57-83 | the move is played on local copies: mover lifted, landing piece added, captured piece removed |
| `See.ExchangeValue` | see.cpp:86-134 | the buffer holds the gains and the fold leaves the as-written SEE value in `gain[0]` |
| `See.See` | see.cpp:43-135 | `see(pos, m)` is 0 for a move that neither captures nor promotes, else the as-written fold of the exchange on `to`; `pos` is only read |
| `See.SeeGe` | see.cpp:137-139 | `see_ge(pos, m, t)` is `see(pos, m) >= t` |
| `Eval.MirrorSq` | eval.cpp:12 | `sq ^ 56` keeps the file and flips the rank |
| `Eval.MirrorInvolution` | eval.cpp:12 | mirroring twice gives the square back |
| `Eval.PawnRankFromSide` | eval.cpp:246-249 | the rank from a side lies in 0..7 |
| `Eval.PawnRankMirror` | eval.cpp:246-249 | White counts the rank as it stands; a black pawn's rank equals a white pawn's on the mirrored square |
| `Eval.AdjSetParts` | eval.cpp:239-241 | a file's neighbours are the file to its left, if any, and the file to its right, if any |
| `Eval.Masks.constructor` | eval.cpp:226-228 | the static masks start zeroed and not filled |
| `Eval.Masks.InitOnce` | eval.cpp:230-244 | `init_masks_once` fills each `FILE_MASK[f]` with file `f` and each `ADJ_FILE_MASK[f]` with what the one-pass loop leaves there; later calls change nothing |
| `Eval.Masks.InitCorrected` | eval.cpp:230-244 | the two-pass fill gives every `ADJ_FILE_MASK[f]` both neighbouring files |
| `Eval.AdjAsWrittenMissesRight` | eval.cpp:239-242 | as written the neighbour mask misses the file to the right; on the a-file it is empty |
| `Eval.IsolatedAsWritten` | eval.cpp:451 | as written an a-file pawn is always isolated, and a b-file pawn with only a c-file neighbour too, while the intended masks say otherwise |
| `Eval.Masks.PawnFiles` | eval.cpp:444-455 | the file loop subtracts, with the side's sign, the doubled and isolated penalties of every file |
| `Eval.Masks.FileTerm` | eval.cpp:445-454 | one file costs `(n - 1)` doubled penalties when `n >= 2` and `n` isolated penalties when the neighbour mask finds no own pawn |
| `Eval.FilePenalty` | eval.cpp:446-454 | a file's penalty is never negative, and an empty file or a single non-isolated pawn costs nothing |
| `Eval.FilesPenaltyZero` | eval.cpp:444-455 | pawns at most one to a file, none isolated, cost nothing |
| `Eval.FilesPenaltyNonNegative` | eval.cpp:444-455 | pawn structure never earns a bonus |
| `Eval.DoubledOnly` | eval.cpp:446-450 | a file of `n >= 2` non-isolated pawns costs `(n - 1) * (12, 8)` |
| `Eval.FrontBand` | eval.cpp:256-268 | ahead of a white pawn lie the ranks above it, ahead of a black pawn the ranks below |
| `Eval.IsPassedPawn` | eval.cpp:251-270 | `is_passed_pawn` is true iff no enemy pawn stands on the same or an adjacent file strictly ahead |
| `Eval.FrontSpanMirror` | eval.cpp:251-270 | the span ahead of a black pawn is the mirror image of a white pawn's on the mirrored square |
| `Eval.Masks.RookOnFile` | eval.cpp:497-506 | one rook earns the open bonus with no pawn on its file, the semi-open bonus with only enemy pawns, else nothing |
| `Eval.Masks.RookFiles` | eval.cpp:484-508 | the rook loop adds, with the side's sign, the bonus of every rook in `pop_lsb` order |
| `Eval.RookSumNoPawns` | eval.cpp:500-502 | with no pawns every rook gets the open-file bonus |
| `Eval.RookSumBounds` | eval.cpp:497-506 | each rook earns between nothing and the open-file bonus |
| `Eval.HangPen` | eval.cpp:332-341 | hanging penalties are never negative |
| `Eval.IsHanging` | eval.cpp:348-350 | a square hangs iff the enemy attacks it and no own piece defends it |
| `Eval.HangPiece` | eval.cpp:344-355 | one kind's loop subtracts the kind's penalty once per hanging piece |
| `Eval.HangingPenalties` | eval.cpp:329-357 | `hanging_penalties` subtracts, pawn to queen, the penalty of every hanging piece with the side's sign |
| `Eval.HangIgnoresKing` | eval.cpp:343 | the king board never enters the penalty |
| `Eval.HangSumNonNegative` | eval.cpp:350-354 | the hanging penalty never turns into a bonus |
| `Eval.HangSumNone` | eval.cpp:350 | nothing is penalised when no counted piece hangs |
| `Eval.AllDefended` | eval.cpp:348-350 | when every attacked square is defended no piece hangs |
| `Eval.MaterialPhase` | eval.cpp:411-429 | the loop gives the signed material sums for middlegame and endgame and `min(phase, 24)` |
| `Eval.MaterialSplit` | eval.cpp:411-419 | the material is White's sum less Black's, whatever the visiting order |
| `Eval.MaterialSymmetry` | eval.cpp:411-419 | equal armies give no material edge, and swapping the colours negates it |
| `Eval.PhaseSides` | eval.cpp:420 | the phase weight is the same whichever side owns the pieces |
| `Eval.StartPhase` | eval.cpp:74-75 | the starting armies make exactly the full phase 24 and no material edge |
| `Eval.PawnsAndKingsPhase` | eval.cpp:74 | pawns and kings add nothing to the phase |
| `Eval.CDivBounds` | eval.cpp:624 | C++ truncating division: the quotient times the divisor lies between zero and the dividend, within one divisor |
| `Eval.CDivNegate` | eval.cpp:624 | truncating division is symmetric about zero |
| `Eval.BlendBounds` | eval.cpp:621-624 | the blend is the middlegame score at phase 24, the endgame score at phase 0, and always between the two |
| `Eval.ColourFlip` | eval.cpp:621-627 | swapping the colours of every term and the side to move gives the same returned score |
| `Words.SplitMix64` | zobrist.cpp:3-8 | `splitmix64` moves the state on by 0x9e3779b97f4a7c15 modulo 2^64 and draws from the new state |
| `Zobrist.AdvanceAdd` | zobrist.cpp:19-26 | stepping the generator `a` then `b` times is stepping it `a + b` times |
| `Zobrist.DrawFromState` | zobrist.cpp:19-26 | draw `n + m` from the seed is draw `m` from the state `n` steps on |
| `Zobrist.ZobristTables.KeyIsDraw` | zobrist.cpp:19-26 | once filled, key number `n` in the order `ZP` row by row, `ZSide`, `ZCastle`, `ZEP` is draw number `n` from 123456789 |
| `Zobrist.ZobristTables.constructor` | zobrist.cpp:10-16 | the static tables start zeroed and not initialised, with seed 123456789 |
| `Zobrist.ZobristTables.Init` | zobrist.cpp:15-29 | `zobrist_init` fills every table with its draws; once initialised, a further call changes nothing |
| `Zobrist.ZobristTables.FillPieces` | zobrist.cpp:20-22 | the 768 piece-square draws fill `ZP` row by row and leave the generator 768 steps on |
| `Zobrist.ZobristTables.FillRow` | zobrist.cpp:21-22 | row `c` of `ZP` holds draws `64c` to `64c + 63` |
| `Zobrist.DrawNext` | zobrist.cpp:3-8 | one call of `splitmix64` on the state after `n` draws yields draw `n` and the state after `n + 1` |
| `Zobrist.FillRun` | zobrist.cpp:25-26 | a loop of `splitmix64` calls fills an array with consecutive draws |
| `Zobrist.SameTables` | tt.cpp:21-30 | the private tables of `zobrist_key_slow` hold the same keys as those of `zobrist_init` |
| `TransTable.ToI8` | tt.cpp:70 | `(int8_t)depth` keeps a depth in -128..127 and otherwise wraps modulo 2^8 |
| `TransTable.ToI16` | tt.cpp:71 | `(int16_t)score` keeps a score in -32768..32767 and otherwise wraps modulo 2^16 |
| `TransTable.SlotCount` | tt.cpp:47-52 | `resize_mb(mb)` allocates `mb * 2^20 / 16` entries, and at least one |
| `TransTable.Lookup` | tt.cpp:58-63 | a probe finds the entry in slot `key % size` exactly when that entry carries `key`, and never in an empty table |
| `TransTable.Stored` | tt.cpp:65-75 | a store changes only slot `key % size`, and leaves `key` there |
| `TransTable.TT.constructor` | tt.h:15-16 | a new table has no entries |
| `TransTable.TT.ResizeMb` | tt.cpp:47-52 | `resize_mb` leaves `SlotCount(mb)` default entries |
| `TransTable.TT.Clear` | tt.cpp:54-56 | `clear` zeroes every entry and keeps the size |
| `TransTable.TT.Probe` | tt.cpp:58-63 | `probe` reports a hit iff the key's slot holds the key, and then copies that entry out; on a miss `out` keeps its value |
| `TransTable.TT.Store` | tt.cpp:65-75 | `store` leaves the table `Stored` describes |
| `TransTable.StoreThenProbe` | tt.cpp:58-75 | after a store the key is always found, and a store that replaced the slot reads back its (truncated) depth and score, flag and move |
| `TransTable.ShallowerStoreKeepsEntry` | tt.cpp:68 | a shallower result for a key already stored changes nothing |
| `TransTable.StoreFrame` | tt.cpp:67 | a store leaves every key in another slot as it was and evicts a different key sharing the slot |
| `TransTable.ClearedTableMisses` | tt.cpp:54-63 | after `clear` every non-zero key misses, while key 0 meets the zeroed entry |
| `TransTable.DefaultSize` | tt.cpp:47-52 | 64 MB gives 2^22 entries |
| `TransTable.PackRoundTrip` | tt.cpp:77-78 | unpacking a packed score gives it back |
| `TransTable.EpIndex` | tt.cpp:40-41 | the en-passant key index is the file of the target square, or 8 when there is none |
| `TransTable.KeyFromTables` | tt.cpp:32-44 | the key loop xors the key of every piece, the side key when Black moves, the castling key of `castling & 15` and the en-passant key |
| `TransTable.ZobristKeySlow` | tt.cpp:14-45 | `zobrist_key_slow` fills its tables on first use and returns the key of the position over them |
| `TransTable.PlacePiece` | tt.cpp:33-36 | putting a piece on an empty square xors its one key into the board key |
| `TransTable.SideToMoveFlip` | tt.cpp:37 | changing the side to move xors the side key in or out and changes nothing else |
| `PerftSpec.MadeFacts` | position.cpp:176-255 | each field of the position `make` leaves, in terms of the position before |
| `PerftSpec.NoKingCapture` | perft.cpp:18-20 | while the enemy king is not attacked, no generated move lands on it, so the perft walk never captures a king |
| `PerftSpec.KingStays` | position.cpp:176-255 | a king the move neither carries nor lands on stays on its square |
| `PerftSpec.KingAfter` | position.cpp:176-255 | after a generated move both kings are still on the board where `kingSq` says, the mover's on its target square if it moved |
| `PerftSpec.EpStays` | position.cpp:176-255 | after a double push the en-passant square is the empty square passed over, with the pushed pawn beyond it |
| `PerftSpec.MadeRights` | position.cpp:237-247 | every castling right left standing belongs to a king still on its home square |
| `PerftSpec.MakePlayable` | perft.cpp:14-25 | a generated move that passes the king test leads from a position the walk can reach to another one |
| `PerftSpec.MadeMover` | perft.cpp:18-19 | after `make` the side to move has switched and the king of the side that just moved is on the board |
| `PerftSpec.SafeAfterMeans` | perft.cpp:18-20 | the test `!is_attacked(kingSq[justMoved], stm)` after `make` is the predicate the count is defined with |
| `PerftSpec.GenAllPseudoLegal` | perft.cpp:9 | every move `gen_pseudo` lists is pseudo-legal |
| `PerftSpec.NodesOverStep` | perft.cpp:14-25 | the count over one more move adds that move's count |
| `PerftSpec.BelowCount` | perft.cpp:5-27 | above depth 0, perft is the sum over the generated moves of the counts one ply down, moves leaving the king attacked counting 0 |
| `PerftSpec.Partials` | perft.cpp:40-57 | there is one partial sum per thread |
| `PerftSpec.Owner` | perft.cpp:46 | every root move index has an owning thread below `threads` |
| `PerftSpec.ReachesOwner` | perft.cpp:46 | the loop `for (i = tid; i < size; i += threads)` reaches index `n` exactly in the thread `n % threads` |
| `PerftSpec.StrideSnoc` | perft.cpp:46-56 | one more root move adds its count to the one thread that reaches it |
| `PerftSpec.PartialsTotal` | perft.cpp:63-65 | adding up the partial sums gives the sum over all root moves: no move lost, none counted twice |
| `PerftSpec.NodesOverTotal` | perft.cpp:14-25 | the loop's count is the sum of the per-move counts |
| `PerftSpec.OverAgrees` | perft.cpp:42-65 | the threads' partial sums of the child counts add up to the single-thread count over the same moves |
| `PerftSpec.RootMtSplit` | perft.cpp:35-65 | with more than one thread, the split count at depth `d + 1` is the total of the workers' partial sums |
| `PerftSpec.PerftRootMtAgrees` | perft.cpp:29-66 | above depth 0, splitting the root moves among threads never changes the count |
| `PerftSpec.SplitTotal` | perft.cpp:63-65 | what the threaded branch adds up is `perft(root, depth)` |
| `PerftSpec.NegativeDepthCountsNothing` | perft.cpp:5-27 | below depth 0 the recursion never reaches its leaf, so whenever it returns it returns 0 |
| `PerftSpec.RootMtDepthZeroAsWritten` | perft.cpp:29-66 | at depth 0 one thread counts 1 while several threads call `perft(p, -1)` below each root move and never count 1 |
| `Perft.Perft` | perft.cpp:5-27 | `perft(pos, depth)` returns the count `Nodes` defines and leaves the position as it found it |
| `Perft.PerftAbove` | perft.cpp:8-26 | above depth 0: generate, then count below every move; the position comes back unchanged |
| `Perft.CountAll` | perft.cpp:14-25 | the move loop adds the counts below the generated moves in list order |
| `Perft.AddChild` | perft.cpp:15-24 | one loop turn adds the count below move `i` |
| `Perft.Generate` | perft.cpp:8-9 | `gen_pseudo` lists the moves of the generator's specification and changes nothing |
| `Perft.GenGenerated` | perft.cpp:9-16 | every generated move may be made and unmade |
| `Perft.CountChild` | perft.cpp:15-24 | make, king test, count below when safe, unmake: the child's count, with the position restored |
| `Perft.ApplyMove` | perft.cpp:16 | `make` changes the position as `MakeCorrected` says and touches nothing else |
| `Perft.KingSafe` | perft.cpp:18-20 | the king test is `!is_attacked(kingSq[justMoved], stm)` |
| `Perft.CountBelow` | perft.cpp:21 | the recursive call counts `depth - 1` plies below the move |
| `Perft.UndoMove` | perft.cpp:24 | `unmake` of a generated move restores the position it was made from |
| `Perft.RetractMove` | perft.cpp:24 | `unmake` changes the position as `Unmake` says |
| `Perft.Worker` | perft.cpp:42-57 | a worker's sum is the count below the root moves its stride reaches |
| `Perft.Fork` | perft.cpp:43 | `Position p = root;` gives a worker its own copy, sharing no array with the root |
| `Perft.StrideSum` | perft.cpp:45-55 | a worker's loop adds the child counts of indices `tid`, `tid + threads`, ... and restores its copy |
| `Perft.AddStrided` | perft.cpp:47-54 | one turn of a worker's loop adds the count below root move `i` |
| `Perft.RunWorkers` | perft.cpp:39-61 | after the workers ran, `partial[tid]` is worker `tid`'s stride sum for every `tid` |
| `Perft.FillSlots` | perft.cpp:59-61 | each worker's result lands in its own slot, in thread order |
| `Perft.SumPartials` | perft.cpp:63-65 | the final loop adds up the partial sums |
| `Perft.PerftRootMt` | perft.cpp:29-66 | `perft_root_mt`, with depth 0 corrected, returns `perft(root, depth)` whatever the number of threads |
| `Perft.PerftOnCopy` | perft.cpp:30-33 | with one thread, perft runs on a copy of the root |
| `Perft.PerftSplit` | perft.cpp:35-65 | the threaded branch returns the total of the workers' partial sums |
| `Search.WdlToScore` | search.cpp:268-275 | a tablebase draw scores 0; a win or cursed win is positive and a loss negative while the ply is below its band |
| `Search.WdlMirror` | search.cpp:268-275 | seen from the other side a verdict turns into its mirror image and the score is negated |
| `Search.WdlOrdered` | search.cpp:268-275 | within 1000 plies loss < blessed loss < draw < cursed win < win |
| `Search.Clampi` | search.cpp:335 | `clampi(x, lo, hi)` lies in `lo..hi`, is `x` when `x` is inside, and the nearer bound otherwise |
| `Search.ClampiIdempotentMonotone` | search.cpp:335 | clamping twice is clamping once, and clamping keeps order |
| `Search.Decayed` | search.cpp:175-176 | `h -= h >> 4` (arithmetic shift) moves an entry towards zero and never past it |
| `Search.DecayedFixedPoints` | search.cpp:168-199 | an entry is left unchanged by decay exactly when it is one of 0..15; every other entry strictly shrinks in size |
| `Search.HistSlot` | search.cpp:174-175 | `[s][f][t]` is an entry of the 2x64x64 history table |
| `Search.ContSlot` | search.cpp:181-186 | `[s][pp][pto][p][to]` is an entry of the 2x6x64x6x64 continuation table |
| `Search.CapSlotLayout` | search.cpp:190-195 | within its bounds a capture-history index is one entry of the 6x64x6 table, and different triples are different entries |
| `Search.Heuristics.constructor` | search.cpp:160-166 | a new per-thread entry has every table zeroed |
| `Search.Heuristics.Clear` | search.cpp:160-166 | `clear` zeroes killers, history, countermoves, continuation and capture history |
| `Search.Heuristics.Decay` | search.cpp:168-199 | `decay` maps every history, continuation-history and capture-history entry `h` to `h - (h >> 4)`, and a zeroed table stays zeroed |
| `Search.DecayTable` | search.cpp:171-178 | the nested loops decay every entry of one flattened table |
| `Search.Searcher.constructor` | search.cpp:155-157 | `Searcher()` runs `set_threads(1)`: one thread with clean tables |
| `Search.Searcher.SetThreads` | search.cpp:202-213 | the thread count is clamped to 1..64, the list of tables is cut or grown to that length, kept entries are the old ones, new ones are fresh, and every entry ends zeroed |
| `Search.Grown` | search.cpp:206 | `resize` appends fresh clean entries, separate from each other and from the old ones |
| `Search.ClearAll` | search.cpp:208-212 | the loop clears every entry |
| `Search.ClearOne` | search.cpp:211 | clearing one entry leaves the other threads' tables as they were |
| `Search.RepetitionDraw` | search.cpp:387-411 | `repetition_draw` is true iff the 50-move rule applies or the key occurs at least twice more among same-side keys on the line and earlier game keys |
| `Search.OtherSideIgnored` | search.cpp:396-399 | keys at an odd distance (the other side to move) never count |
| `Search.TwoEarlierIsDraw` | search.cpp:396-399 | the same key twice earlier on the line with the same side to move is a draw |
| `Search.FreshKeyNoDraw` | search.cpp:387-411 | without the 50-move rule, a key that occurs nowhere earlier is never a repetition |
| `Search.GameHitsMonotone` | search.cpp:404-407 | scanning more of the game history never finds fewer repetitions |
| `Search.Victim` | search.cpp:290 | the victim is a pawn for en passant, otherwise the recorded capture |
| `Search.ScoreBands` | search.cpp:287-326 | while the learned tables stay within 100,000: TT move first, then every capture or promotion, then killer 1, killer 2, countermove, then every other quiet move |
| `Search.MvvLva` | search.cpp:292-293 | between plain captures without history or recapture bonus, the more valuable victim comes first, then the cheaper attacker |
| `Search.QuietPromotionReadsNeighbour` | search.cpp:290-296 | as written, a quiet promotion reads capture-history `[PAWN][to][6]`, which is the slot of a pawn taking a pawn on the next square |
| `Search.CorrectedReadsOwnEntry` | search.cpp:287-326 | the corrected score agrees with the source on every move with a real victim and drops the capture-history term for a quiet promotion |
| `Search.TimeLimits` | search.cpp:1041-1054 | with a budget, `1 <= soft <= hard`, hard is the budget less the overhead (at least 1) and soft is at most one second earlier; without one both are 0 |
| `Search.SoftBeforeHard` | search.cpp:1047-1048 | the soft limit stops strictly before the hard one when there is room, by at least 50 ms above 50 ms and by about a twentieth of it, capped at one second |
| `Uci.FenEnd` | uci.cpp:46-51 | the FEN loop stops at the first word `moves` after `fen`, or at the end of the line |
| `Uci.MovesAfter` | uci.cpp:59-61 | the moves follow only when the next word read is `moves` |
| `Uci.PlanOf` | uci.cpp:34-73 | as written, a command loads only after `startpos` or `fen` in second place, `startpos` loads the start FEN, and the moves are a suffix of the words |
| `Uci.PlanIntended` | uci.cpp:34-73 | the intended reading loads in the same cases and plays a suffix of the words |
| `Uci.CommandWords` | uci.cpp:35-38 | a line written as words joined by spaces is read back by `>>` as the same words |
| `Uci.StartposPlan` | uci.cpp:40-42 | `position startpos moves ...` loads the start position and plays exactly its moves |
| `Uci.FenWordsJoined` | uci.cpp:44-51 | the FEN is the words after `fen` up to `moves`, joined by single spaces |
| `Uci.FenMovesDropped` | uci.cpp:47-61 | as written, `position fen <fen> moves m1 ...` loads the FEN and plays nothing: `m1` is taken for the `moves` keyword |
| `Uci.FenMovesPlayed` | uci.cpp:43-72 | the intended reading plays a FEN command's moves |
| `Uci.PlansAgree` | uci.cpp:34-73 | the two readings differ only on a FEN command that has moves |
| `Uci.PlayStep` | uci.cpp:65-68 | one turn: a string `parse_uci_move` reads as no move leaves the side to move; a move found is made with the as-written `make`, passing the turn and leaving both kings on the board |
| `Uci.StepReplayable` | uci.cpp:64-68 | after a turn that made a move the loop can go on with the remaining strings |
| `Uci.Replay` | uci.cpp:64-71 | the move loop stops with false only on a string it reads, and every position it leaves after a move string is well formed |
| `Uci.ReplayConcat` | uci.cpp:64-71 | playing two lists of moves one after the other is playing the first and, if every move of it was found, the second from where it left |
| `Uci.ReplaySideToMove` | uci.cpp:64-71 | a replay that finds every move leaves the side to move flipped once per move |
| `Uci.ReplayStepCoherent` | uci.cpp:65-68 | in a coherent position a turn reads its string as the clean reading `ParseSpec` does and makes that move from the position as it was |
| `Uci.Outcome` | uci.cpp:34-73 | a malformed command or a rejected FEN leaves the position and answers false; an accepted FEN whose moves are all found answers true |
| `Uci.ParsePositionCmd` | uci.cpp:34-73 | `parse_position_cmd` leaves the position and answer `Outcome` gives for the as-written reading of its words, replaying the moves with the as-written `make` |
| `Uci.ReadPlan` | uci.cpp:37-61 | the word-reading part of `parse_position_cmd` gives `PlanOf` of the words |
| `Uci.LoadAndPlay` | uci.cpp:40-72 | `load_fen` then the moves: a rejected FEN answers false and keeps the position; otherwise the outcome is the replay from the loaded position |
| `Uci.FenWords` | uci.cpp:44-51 | the FEN loop collects the words up to `moves`, joined by spaces |
| `Uci.PlayMoves` | uci.cpp:63-72 | the move loop leaves what `Replay` gives and keeps the FEN clocks, so the full-move number is the loaded one |
| `Uci.PlayOne` | uci.cpp:65-69 | a move string that reads as no move stops the loop with the position the search left; otherwise the move is made, the clocks are kept and the loop goes on |
| `Uci.NameScan` | uci.cpp:122-126 | the name loop stops just after the word `value`, if there is one |
| `Uci.ValueText` | uci.cpp:127-129 | the value is the rest of the line with its leading spaces dropped |
| `Uci.SetOptionRoundTrip` | uci.cpp:114-129 | `setoption name <Name> value <Value>` with a one-word name reads back that name and value |
| `Uci.Set` | uci.cpp:131-185 | one branch of the option switch keeps every option in its advertised range, and a spin value `stoi` rejects changes nothing |
| `Uci.OptionNames` | uci.cpp:131-185 | exactly the twelve option names select a branch; six of them are spin options |
| `Uci.Applied` | uci.cpp:114-185 | `setoption` keeps options in range; an unknown name or a spin value `stoi` rejects changes nothing |
| `Uci.SpinRange` | uci.cpp:97-107 | each spin option's range, as the `uci` reply advertises it, is not empty |
| `Uci.SpinClamped` | uci.cpp:131-181 | a spin value read as `n` sets its option to `n` clamped to its range, and nothing else changes |
| `Uci.SpinValues` | uci.cpp:131-181 | a number followed by non-digit text is read as that number and clamped into range |
| `Uci.LastSettingWins` | uci.cpp:114-185 | setting an option twice is setting it once to the second value, unless the second is a spin value `stoi` rejects |
| `Uci.GoKeyNames` | uci.cpp:207-213 | every `go` keyword is one word that reads back as itself |
| `Uci.WithLimit` | uci.cpp:207-213 | `iss >> lim.field` sets that field, and only it |
| `Uci.GoScan` | uci.cpp:206-215 | the `go` loop keeps every limit a 32-bit int |
| `Uci.GoLimitsOf` | uci.cpp:198-215 | the limits of any `go` line are 32-bit ints |
| `Uci.ParseGo` | uci.cpp:198-215 | the `go` branch reads the limits `GoLimitsOf` gives |
| `Uci.GoReadsBack` | uci.cpp:198-215 | a `go` line written from keyword/number pairs reads back as those pairs applied in order, other fields 0 |
| `Uci.GuiGoCommand` | uci.cpp:198-215 | `go movetime <ms>` asks for a timed search of `ms` and sets nothing else, so the depth stays 0 |
| `Uci.GoScanRead` | uci.cpp:206-213 | a keyword followed by a number that reads sets that keyword's field, and the scan resumes after the number |
| `Uci.GoScanFrom` | uci.cpp:206-215 | from the start of any written pair, the scan sets the remaining pairs in order and ends with the text |
| `Uci.IntToStringReads` | uci.cpp:207-213 | `iss >>` into an `int` reads back every numeral `std::to_string` writes, stopping at the space after it |
| `Uci.GamePly` | uci.cpp:219 | the game ply `(fullmove - 1) * 2 + (stm == BLACK)` is never negative for a valid full-move number |
| `Uci.GamePlyRoundTrip` | uci.cpp:219 | the ply's parity is the side to move and its half the number of completed full moves |
| `Uci.GamePlySteps` | uci.cpp:219 | the formula counts one ply per half-move when the full-move number rises after Black's move: White's ply plus one is Black's, Black's plus one the next White ply |
| `Uci.WrittenCounters` | uci.cpp:219 | as written, the counters after `n` replayed moves keep the loaded full-move number and alternate the side to move |
| `Uci.WrittenPlyStalls` | uci.cpp:219-220 | as written, the game ply never passes Black's ply of the loaded full move, so a book open there stays open after any number of moves |
| `Uci.BookPastMaxPly` | uci.cpp:219-220 | `position startpos moves e2e4 e7e5` with `BookMaxPly` 2 probes the book at ply 0, where the counted ply 2 closes it |
| `Uci.CountedCounters` | uci.cpp:219 | counted full moves never fall below the loaded one |
| `Uci.CountedPlyAdvances` | uci.cpp:219 | with counted full moves each replayed move adds exactly one game ply |
| `Uci.BookClosesCounted` | uci.cpp:219-220 | with counted full moves the book is not probed once `BookMaxPly` moves have been replayed from a valid full-move number |
| `Uci.BookProbed` | uci.cpp:219-220 | the book is probed only when it is on and loaded, and then from a valid full-move number only in plies 0 to `BookMaxPly - 1` |
| `Uci.NoBookAtZero` | uci.cpp:220 | with `BookMaxPly` 0 the book is never probed |
| `Cli.PieceChar` | cli.cpp:10-18 | `piece_char` prints `.` exactly for an empty square, upper case for White and lower case for Black |
| `Cli.PieceCharIsFenLetter` | cli.cpp:10-18 | the printed letter is the FEN letter of that piece and colour |
| `Cli.PieceCharInjective` | cli.cpp:10-18 | different board entries print differently |
| `Cli.MillisArg` | cli.cpp:107-109 | the `go`/`auto` budget is between 1 and `INT_MAX` |
| `Cli.MillisDefault` | cli.cpp:107-109 | without an argument the budget is 200 ms |
| `Cli.MillisOfString` | cli.cpp:107-109 | a number after the command is the budget when positive, and 1 otherwise |
| `Cli.MillisOfNumeral` | cli.cpp:107-109 | any numeral that `>>` reads as `n` gives the budget `n` when positive, and 1 otherwise |
| `Cli.MillisOfWord` | cli.cpp:107-109 | a word that is not a number makes the read fail and store 0, so the budget is 1 ms, not 200 |
| `Text.Trim` | params.cpp:9-15 | `trim` leaves no whitespace at either end and never lengthens the string |
| `Text.TrimShape` | params.cpp:9-15 | what `trim` drops is whitespace only, at both ends |
| `Text.TrimUnique` | params.cpp:9-15 | padding a string with non-whitespace ends by whitespace and trimming gives it back |
| `Text.TrimIdempotent` | params.cpp:9-15 | trimming twice changes nothing |
| `Text.Find` | params.cpp:56 | `line.find('=')` is the index of the first `=`, or none |
| `Text.SplitJoin` | gui.py:229-230 | splitting a join at its separator gives the parts back when no part holds the separator |
| `Text.Words` | gui.py:154 | `str.split()` (and successive `>>` reads) gives tokens that are non-empty and hold no whitespace |
| `Text.WordsJoin` | gui.py:890 | the single-space join of words splits back into those words |
| `Decimal.IntToString` | gui.py:226 | `str(n)` and `std::to_string(n)`: a minus sign for negative numbers, then the digits without leading zeros |
| `Decimal.PyIntOfString` | gui.py:212 | `int(str(n)) == n` |
| `Decimal.CStoi` | params.cpp:61-66 | `std::stoi` succeeds only with a value that fits an `int` |
| `Decimal.CStoiOfString` | uci.cpp:133 | `std::stoi` reads back `std::to_string(n)` for every `int` `n`, whatever non-digit text follows |
| `Decimal.CStoiIgnoresTail` | uci.cpp:133 | text after the digits is ignored, so `stoi("12abc")` is 12 |
| `Decimal.ReadInt` | uci.cpp:207-213 | `iss >> n` reads an `int` that fits, stops at the first non-digit after at least one digit, and reports overflow at the bound |
| `Decimal.ReadIntOfString` | uci.cpp:207-213 | `iss >> n` reads back what `std::to_string` wrote after some whitespace |
| `EngineParams.DefaultsCoverKeys` | params.h:9-38 | the default values name exactly the twenty fields `set_kv` knows |
| `EngineParams.WithSetting` | params.cpp:17-47 | `set_kv` succeeds iff the key is one of the twenty field names, and then sets that field alone to `v` |
| `EngineParams.ParseLine` | params.cpp:53-66 | a line that sets something gives a non-empty trimmed key |
| `EngineParams.ApplyLineIs` | params.cpp:53-67 | one line either sets a known key to its `stoi` value or changes nothing |
| `EngineParams.LastLineWins` | params.cpp:49-70 | loading a file never adds or removes a field, and each field ends with the value of the last line that sets it, or keeps its value |
| `EngineParams.UnknownKeysChangeNothing` | params.cpp:49-70 | a file none of whose lines names a field changes nothing |
| `EngineParams.Params.constructor` | params.cpp:7 | `g_params` starts at the defaults |
| `EngineParams.Params.SetKv` | params.cpp:17-47 | `set_kv` returns true iff the key is known, and then updates that field only |
| `EngineParams.Params.LoadParamsFile` | params.cpp:49-70 | a file that cannot be opened returns false and changes nothing; a readable one returns true after applying its lines in order |
| `ParamFile.StrLeTotal` | gui.py:225 | Python's string order is total |
| `ParamFile.StrLeTransitive` | gui.py:225 | Python's string order is transitive |
| `ParamFile.SortedKeys` | gui.py:225 | `sorted(params.keys())` lists every key exactly once |
| `ParamFile.SortedKeysAscending` | gui.py:225 | the keys come out in strictly increasing order |
| `ParamFile.Parsed` | gui.py:202-215 | each line is parsed on its own, in order |
| `ParamFile.ParseParamFile` | gui.py:198-216 | a missing file gives the empty dict; otherwise the lines are read in order into an empty dict |
| `ParamFile.LastEntryWins` | gui.py:211-213 | a key is in the dict iff some line sets it, and then holds the last value given |
| `ParamFile.StoreSettings` | gui.py:202-215 | one setting line per key, in order, stores exactly those keys with their values |
| `ParamFile.RStrip` | gui.py:222 | `rstrip()` keeps a prefix that does not end in whitespace |
| `ParamFile.SplitLines` | gui.py:221 | `splitlines()` gives lines without line breaks |
| `ParamFile.CommentLine` | gui.py:222 | a header line is written as a comment starting with `#` |
| `ParamFile.HeaderLines` | gui.py:220-223 | every header line written is a `#` comment without a line break |
| `ParamFile.SettingLines` | gui.py:225-226 | one `key=value` line per key, in the order given |
| `ParamFile.WriteParamFile` | gui.py:219-230 | `write_param_file` writes the header comments, a lone `#`, then one line per key in sorted order, each ending in a newline |
| `ParamFile.HeaderPart` | gui.py:220-223 | the header loop appends one comment per header line and then `#` |
| `ParamFile.SettingsPart` | gui.py:225-226 | the settings loop appends one `key=value` line per key |
| `ParamFile.SettingLineReads` | gui.py:202-215 | a written `key=value` line parses back as that key and value |
| `ParamFile.CommentLineSkipped` | gui.py:205-206 | a comment line is skipped |
| `ParamFile.WrittenLines` | gui.py:230 | the written text splits back into its lines, plus the empty piece after the final newline |
| `ParamFile.ReadWritten` | gui.py:198-230 | comment lines followed by one setting per key read as exactly those keys and values |
| `ParamFile.WriteThenParse` | gui.py:198-230 | reading back what `write_param_file` wrote gives the same dict, for keys without whitespace, `=` or `#` |
| `Spsa.TunedTable` | gui.py:676-697 | the tuned keys are distinct and every default lies within its bounds |
| `Spsa.TunedSignatures` | gui.py:676-697 | the seventeen tuned keys are told apart by their length and end letters |
| `Spsa.Defaults` | gui.py:232-255 | a table read as a dict maps each key to its default and holds nothing else |
| `Spsa.DefaultBaseParams` | gui.py:232-255 | `default_base_params()` holds every tuned key within its bounds |
| `Spsa.InitialTheta` | gui.py:703-706 | the tuner starts from the base file's dict, or from the defaults when that is empty |
| `Spsa.ClampInt` | gui.py:257-258 | `clamp_int(x, lo, hi)` lies in `lo..hi`, is `x` when inside, and the nearer bound otherwise |
| `Spsa.ClampIdempotent` | gui.py:257-258 | clamping twice is clamping once, and clamping never moves a value further from any point of the range |
| `Spsa.RoundHalfEven` | gui.py:725 | Python's `round` gives an integer within one half, ties to even |
| `Spsa.RoundNearest` | gui.py:725 | away from ties the nearest integer is the only answer |
| `Spsa.PerturbStep` | gui.py:725-727 | the perturbation step is at least 1, and within one half of `ck` once `ck` is at least one half |
| `Spsa.Delta` | gui.py:718 | the Rademacher sign of a key is +1 or -1 |
| `Spsa.ShiftSymmetric` | gui.py:728-729 | away from the bounds, `theta_plus` and `theta_minus` sit `step * delta` either side of `theta` |
| `Spsa.Perturbed` | gui.py:720-729 | the perturbed dicts hold `theta`'s keys plus the tuned ones |
| `Spsa.PerturbedKeys` | gui.py:720-729 | in a perturbed dict each tuned key holds its shifted value and every other key is copied |
| `Spsa.PerturbInBounds` | gui.py:723-729 | every tuned key of `theta_plus` and `theta_minus` lies within its bounds |
| `Spsa.PerturbKeepsOthers` | gui.py:720-721 | keys outside the bounds table are copied unchanged into both perturbed dicts |
| `Spsa.Perturb` | gui.py:720-729 | the loop builds `theta_plus` and `theta_minus` as `Perturbed` describes |
| `Spsa.UpdateStep` | gui.py:759-762 | the integer update is 0 iff `ak * y * delta` lies within 0.2 of zero, is positive iff it exceeds 0.2, and is within 4/5 of it |
| `Spsa.Scaled` | gui.py:759 | the update's input is `ak * y` times the key's sign |
| `Spsa.Updated` | gui.py:757-763 | the updated dict holds `theta`'s keys plus the tuned ones |
| `Spsa.UpdatedKeys` | gui.py:757-763 | after the update each tuned key holds its moved value and every other key is unchanged |
| `Spsa.UpdateInBounds` | gui.py:757-763 | after the update every tuned key lies within its bounds, rising or falling with the sign of `ak * y * delta` when there is room |
| `Spsa.UpdateKeepsOthers` | gui.py:757-763 | keys outside the bounds table survive the update unchanged |
| `Spsa.UnmovedYet` | gui.py:757-763 | the loop reads each key before it writes it, so reading and writing the same dict is safe |
| `Spsa.Update` | gui.py:757-763 | the update loop leaves the dict `Updated` describes |
| `Spsa.GuiKeysUnknownToEngine` | gui.py:676-697 | none of the tuner's keys is a field the engine's loader knows |
| `Spsa.EngineReadsSettingKey` | params.cpp:53-60 | the engine reads a tuner `key=value` line under the same key, if at all |
| `Spsa.EngineSkipsTunerLine` | params.cpp:53-67 | no line of a file the tuner wrote sets an engine field |
| `Spsa.EngineIgnoresTunerFile` | params.cpp:49-70 | loading a tuner-written file leaves every engine parameter as it was |
| `Matches.BestMoveOf` | gui.py:904-907 | the move read from a `bestmove` line is never empty (`0000` when missing) |
| `Matches.BestMoveRead` | gui.py:904-907 | the move the engine prints after `bestmove` is the move the loop reads |
| `Matches.OpeningFrom` | gui.py:853-860 | the opening played is the longest legal prefix of the line |
| `Matches.ApplyOpening` | gui.py:853-860 | the opening loop stops at the first illegal move |
| `Matches.Outcome` | gui.py:920-923 | a finished game scores 1 for a White win, 0 for a Black win and 0.5 otherwise |
| `Matches.GameFrom` | gui.py:879-923 | a game's score from White's side is 0, 0.5 or 1 |
| `Matches.PlayOneGame` | gui.py:841-929 | `_play_one_game` gives the score of the game continued from the legal prefix of the opening |
| `Matches.IllegalMoveLoses` | gui.py:912-915 | an engine that answers with an illegal move loses, whichever colour it plays |
| `Matches.StoppedGameIsDraw` | gui.py:882-884 | a game interrupted by the stop flag counts as a draw |
| `Matches.NoWinnerMeansDraw` | gui.py:879-923 | engines that never play an illegal move and never reach a decisive outcome draw every game |
| `Matches.Played` | gui.py:799-801 | the games played are all games before the stop flag, and none after it |
| `Matches.PlayMatch` | gui.py:794-817 | `_match_plus_vs_minus` (and `_match_A_vs_B`) returns the side's total over the games played, colours alternating |
| `Matches.TotalBounds` | gui.py:794-797 | the match score lies between 0 and the number of games |
| `Matches.ColoursAlternate` | gui.py:802-813 | when White wins every game the side scores half the games rounded up; all draws give half the games |
| `Matches.SignalRange` | gui.py:744-753 | `y = 2 * (avg - 0.5)` lies in [-1, 1], is positive iff the side scored more than half, and 0 for no games |
| `InfoLine.Keep` | gui.py:159-160 | a value `int()` accepts is stored; otherwise the previous value stays |
| `InfoLine.ParseInfo` | gui.py:153-180 | `_parse_info` gives the scan of the line's tokens from an empty dict |
| `InfoLine.UnknownTokensSkipped` | gui.py:178 | tokens that are not keywords leave the dict alone |
| `InfoLine.PvEndsScan` | gui.py:175-177 | `pv` ends the scan, and the rest of the line, single-spaced, is the principal variation |
| `InfoLine.BadValueDropsField` | gui.py:158-161 | a value that is not an integer drops only its own key and the scan goes on after the pair |
| `InfoLine.EngineInfoHead` | search.cpp:1144-1164 | the info line the engine prints has eighteen tokens before `pv` |
| `InfoLine.EngineInfoRead` | search.cpp:1144-1166 | the decoder reads back the depth, nodes, time, score kind and value, and the principal variation the engine printed |
| `InfoLine.JoinedScan` | gui.py:154 | joining tokens with single spaces and splitting again gives the tokens back |

## Left out

- `gui.py` process and UI code is not modelled: engine subprocess pipes, the reader thread and queue timeouts, the Tk interface, PGN and clipboard handling, file-system effects, and the worker thread around `_spsa_worker`. These are I/O and concurrency.
- Randomness in `gui.py` is a parameter. The ±1 coin of the perturbation is a function `coin` from key to bool, and the opening `random.choice` picks is an argument of `PlayOneGame`.
- Floating point is modelled as exact reals. The gains `a/k^alpha` and `c/k^gamma` are inputs (`ck`, `aky`). The 0.2 threshold of the SPSA update is the rational 1/5 rather than the double nearest 0.2. The `avg`/`y` division is exact.
- `Search.TimeLimits` takes the base budget as an input: `compute_time_limit_ms`, which computes it in doubles, is not modelled.
- The nps figure, the log table of `lmr_reduction` and `tt.hashfull` are not modelled. They are floating point or figures the search fills at run time.
- The alpha-beta search is not modelled: `negamax`, `qsearch`, `Searcher::go` with iterative deepening and Lazy-SMP threads, multi-PV and `build_pv`. It is driven by the wall clock, atomics and worker threads. `TT::new_search` belongs to it.
- Syzygy probing (a wrapper over an external library), the Polyglot book (declarations only), `uci_loop`/`cli_loop` and their stdin/stdout and search thread, and `main.cpp` are not modelled.
- `Perft.PerftRootMt` runs the workers' shares one after another. The threads are not modelled; the partition of root moves among them is.
- `Decimal.PyInt` does not accept underscores between digits ("1_000") or non-ASCII digits, which Python's `int()` does.
- `Text.PY_SPACE` holds the whitespace of the first 256 code points only; `str.split()` and `str.strip()` also treat the wider Unicode spaces as whitespace.
- `ParamFile.ParseParamFile` splits its text on '\n' only: universal newlines and the extra separators of `splitlines` are not modelled.
- `Matches.GameFrom` scores a malformed `bestmove` (such as `a1a1`) as an illegal move, a loss for the side that sent it. In Python `chess.Move.from_uci` raises instead, and the exception ends the SPSA run.
- `Uci.PlayMoves` and `Uci.PlayOne` leave out `pos.push_game_key()` (uci.cpp:69), which appends each replayed position's key to the game history. The key and the history belong to the search, which is not modelled.
- `Fen.LoadFen` does not model the Zobrist key and game history that `load_fen` resets (fen.cpp:105-106); they belong to the search.
- `TransTable.TT.ResizeMb` allocates the entry count `SlotCount` computes, even for a negative size. There the C++ `(size_t)mb` is about 2^64 and the allocation fails.
- `Perft.Perft`, `Perft.PerftRootMt`, `PerftSpec.Nodes` and `MoveGenSpec.GenMakeUnmake` are proved over `Position.Position.MakeCorrected`. So are the members that make and unmake a move beneath them, which the rest of this line covers too:
  - in `Perft`: `Perft.ApplyMove`, `Perft.UndoMove`, `Perft.CountChild`, `Perft.CountBelow`, `Perft.CountAll`, `Perft.AddChild`, `Perft.PerftAbove`, `Perft.Worker`, `Perft.StrideSum`, `Perft.AddStrided`, `Perft.RunWorkers`, `Perft.FillSlots`, `Perft.PerftOnCopy` and `Perft.PerftSplit`;
  - in `PerftSpec`: `PerftSpec.KingSafeAfter`, `PerftSpec.MadeFacts`, `PerftSpec.MadeEp`, `PerftSpec.MadeRights`, `PerftSpec.MakePlayable`, `PerftSpec.MadeMover`, `PerftSpec.SafeAfterMeans`, `PerftSpec.Child`, `PerftSpec.NodesBelow`, `PerftSpec.BelowCount`, `PerftSpec.NodesOver`, `PerftSpec.NodesOverStep`, `PerftSpec.ChildCounts`, `PerftSpec.NodesOverTotal`, `PerftSpec.ChildCountsLast`, `PerftSpec.PerftRootMt`, `PerftSpec.OverAgrees`, `PerftSpec.RootMtSplit`, `PerftSpec.PerftRootMtAgrees`, `PerftSpec.SplitTotal`, `PerftSpec.After` and `PerftSpec.PerftInt`.

  `MakeCorrected` clears the castling right of a rook captured on its corner. perft.cpp calls the as-written `make`, which keeps that right (see "## Findings"). `PositionSpec.MakeAgrees` shows the two coincide on every move except a capture that lands on a corner. The as-written child of such a capture can hold a right with no rook behind it, and the castle from it is not undone (`PositionSpec.UnmakeConjuresRook`), so no count is proved for the source on those positions.
- `Legal.Generate`, `Legal.TryMove`, `Legal.ParseUciMove`, `Legal.ParseScan`, `Legal.HasAnyLegalMove` and `Legal.Scan` require `MoveGenSpec.GenReady`: the side to move has its king on the board. Without a king, `kingSq` holds `NO_SQ` and `is_attacked` indexes its tables with -1, which is undefined behaviour. The other rules of a coherent position (pieces, bitboards and board agree; every right backed by its rook) are not required. These members follow the as-written `make`/`unmake`, so a move that does not round-trip leaves the position `Legal.Back` describes.
- `Legal.ParseSound`, `Legal.ParseReadsMoveToUci` and `Legal.AnyLegalIffParsable` are stated over the clean reading `Legal.ParseSpec`/`Legal.AnyLegal` on coherent positions. `Legal.ParseWrittenCoherent` and `Legal.AnyWrittenCoherent` prove that there the as-written `Legal.ParseWritten`/`Legal.AnyWritten` agree with it. On other positions only `Legal.ParseWrittenSound` is proved.
- `Uci.Replayable`/`Uci.Loadable` exclude a `position` command whose moves need a missing king. The side to move must have a king when any move follows, and the other side too when a second move follows. Without one `is_attacked` reads its tables at index -1, which is undefined behaviour.
- `Perft.Perft` takes its depth as a `nat` and counts nodes in an unbounded `nat` rather than a `uint64_t`. `PerftSpec.NodesInt` models the `int` depth, with a fuel bound on its recursion that leaves the negative-depth recursion of perft.cpp's depth-0 bug unbounded (it returns `None`).
- `MoveList` capacity is not modelled: the generator returns a sequence.
- `find_magic_for_square`'s random search of 500,000 tries is replaced by `Magics.FindMagic` trying a given candidate list. Only its contract is kept: the magic it returns is collision-free, or the search fails.
- The evaluation terms built on piece-square tables or attack maps are not modelled:
  - piece-square tables and `pst_add`;
  - the bishop pair;
  - passed-pawn and connected-pawn bonuses;
  - mobility and `attacks_for_side`;
  - king ring and pawn shield;
  - outposts;
  - the bad bishop;
  - tempo.
  `Eval.Blend` takes the midgame and endgame sums as inputs.
- `Fen.LoadFen` requires `Fen.Parse(fen) != Undefined`. The strings on which `load_fen` has undefined behaviour are excluded rather than reproduced: a placement that writes off the board, an input that ends where the en-passant field should start (two reads past the end), and clocks beyond `int`.

## Findings

| source | as written | input that shows it | evidently intended | confidence | as-written member | corrected member |
|---|---|---|---|---|---|---|
| see.cpp:133 | the backward pass sets `gain[i] = max(gain[i], -gain[i+1])`, so the result is never below `gain[0]`: the side that just captured is credited with the better of standing pat and the opponent's recapture | white queen takes a black pawn defended by a pawn: gains [100, 800], `see` returns +100 although the queen is lost for a pawn | `gain[i] = min(gain[i], -gain[i+1])`: the opponent recaptures only when that is better for them, giving -800 here | not executed | `See.Backward`, `See.SeeOverstates` | `See.Corrected`, `See.CorrectedIsGameValue`, `See.SeeCorrectedIsGameValue` |
| eval.cpp:236-243 | `ADJ_FILE_MASK[f]` ORs in `FILE_MASK[f+1]` inside the loop that fills `FILE_MASK[f]`, when the right neighbour is still zero: every mask holds only the left file, and the a-file mask is empty | an a-file pawn beside a b-file pawn counts as isolated, and so does a b-file pawn beside a c-file pawn with no a-file pawn | each mask holds both neighbouring files | not executed | `Eval.AdjAsWritten`, `Eval.AdjAsWrittenMissesRight`, `Eval.IsolatedAsWritten` | `Eval.Masks.InitCorrected` |
| position.cpp:237-247 | `make` clears castling rights for a king move or a rook leaving its corner, but not when a rook is captured on its corner | `4k3/8/8/8/8/6n1/8/4K2R b K - 0 1`, Black plays g3h1: White keeps `K`, then e1g1 is generated and its `make` toggles a rook that is not there; `unmake` leaves a rook on h1 | a capture on a corner also clears that corner's right | not executed | `PositionSpec.RightsAsWritten`, `PositionSpec.RightsAsWrittenLosesRook`, `PositionSpec.UnmakeConjuresRook` | `PositionSpec.Rights`, `PositionSpec.MakeKeepsRightsBacked`, `Position.Position.MakeCorrected` |
| perft.cpp:52 | with more than one thread every worker calls `perft(p, depth - 1)` below each root move, so depth 0 gives `perft(p, -1)`, which never meets the `depth == 0` base case | `perft_root_mt(root, 0, 2)` recurses without end, while `perft_root_mt(root, 0, 1)` returns 1 | depth 0 returns 1 whatever the number of threads | not executed | `PerftSpec.PerftRootMtAsWritten`, `PerftSpec.RootMtDepthZeroAsWritten` | `PerftSpec.PerftRootMtAgrees`, `Perft.PerftRootMt` |
| uci.cpp:46-61 | the FEN loop stops after reading `moves`, then the next `>>` reads the first move as the `moves` keyword; it is not `moves`, so the command returns with no move played | `position fen 4k3/8/8/8/8/8/8/4K3 w - - 0 1 moves e1e2` leaves the king on e1 | the moves after a FEN are played as they are after `startpos` | not executed | `Uci.PlanOf`, `Uci.FenMovesDropped` | `Uci.PlanIntended`, `Uci.FenMovesPlayed`, `Uci.PlansAgree` |
| search.cpp:290-296 | a promotion without capture has victim `NO_PIECE` (6), so `captureHist[PAWN][to][6]` is read one past its row: it is the entry `[PAWN][to+1][PAWN]` | e7e8q with e8 empty is scored with the history of a pawn capturing a pawn on f8 | a quiet promotion adds no capture-history term | not executed | `Search.MoveScoreBasic`, `Search.QuietPromotionReadsNeighbour` | `Search.MoveScoreCorrected`, `Search.CorrectedReadsOwnEntry` |
| uci.cpp:219-220 | the book gate computes the game ply from `fullmoveNumber`, but the `make` text of position.cpp:176-255 never advances it (position.h as given declares no clocks and no hash key, while search.cpp reads `pos.key` after `make`, so the linked `make` may differ), so after `position ... moves ...` the ply stays at the loaded one or one more | `position startpos moves e2e4 e7e5` then `go` with `BookMaxPly` 2: the ply read is 0, so the book is probed at the game's third ply | the ply counts the moves replayed, so the book closes after `BookMaxPly` of them | not executed | `Uci.WrittenCounters`, `Uci.WrittenPlyStalls`, `Uci.BookPastMaxPly` | `Uci.CountedCounters`, `Uci.CountedPlyAdvances`, `Uci.BookClosesCounted` |
