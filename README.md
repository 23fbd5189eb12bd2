# chessrs core in Dafny

A model of the chess core of the `chessrs` crate, with proofs of what its
code promises. The crate holds two generations of code.

- **The bitboard engine.**
  - A `Bitset` is one 64-bit word. It is a set of squares with `set_bit`, `clear_bit` and `is_bit_set`.
  - A `Piece` is one of twelve identities, each with a table index and a one-letter code.
  - A `Board` holds twelve piece words, three occupancy words (slot 0 both colours, slot 1 white, slot 2 black) and the side to move.
  - `Board::from_fen` reads the piece placement of a Forsyth–Edwards Notation record (section 16.1 of the PGN Standard).
  - `Board::make_move` checks a move against the generator and then plays it.
  - The generator (`valid_moves`) enforces the turn and casts rays for rooks, bishops and queens.
  - `main.rs` holds the text-interface helpers:
    - algebraic coordinates to and from (rank, file), where rank 0 is the 8th rank;
    - the squares of a bitset, named;
    - `parse_move`, which classifies a move;
    - `current_side_moves`, which lists every move of the side to move.
- **The older array engine** (`src/core`).
  - An 8×8 array of `Square(Option<Piece>)` with its own FEN placement reader.
  - A rook-only move check, `is_move_valid`, which scans the rank or file between start and end.
  - A `make_move` that copies the start square to the end square.

Layout, one module per file:

| file | module | what it holds |
|---|---|---|
| wrappers.dfy | Wrappers | `Option` |
| bitset.dfy | Bitsets | `Bitset`, a word of 64 bits |
| piece.dfy | Pieces | `Piece`, `Color`, their tables |
| position.dfy | Positions | the bitboard `Board`'s state as a value, and `get`/`set`/`clear` on it |
| board.dfy | Boards | class `Board` over `array<Bitset>`, specified through `Positions`, `Fen` and `Moves` |
| strings.dfy | Strings | `str::split` on one character |
| fen.dfy | Fen | what `Board::from_fen` computes, and which records it accepts |
| targets.dfy | Targets | the generator's target sets and ray properties |
| movegen.dfy | MoveGen | `sliding_moves` and the dispatch, as methods proved equal to `Targets` |
| moves.dfy | Moves | the two move shapes and the effect of `make_move` |
| game.dfy | Game | the `main.rs` helpers |
| core_piece.dfy | CorePieces | the old engine's pieces |
| core_board.dfy | CoreBoards | class `Board` over `array2<Square>`, and the rook check |

State that the source updates in place is held in classes:
- `Boards.Board` with its two arrays;
- `CoreBoards.Board` with its 8×8 array.

Their methods are specified by value functions applied to a snapshot: `Model()` and `Cells()`. The properties are proved about those functions.

The loops of the source are methods with loop invariants:
- `sliding_moves`, with its ray walk in `WalkRay`;
- the FEN row loops of both engines;
- `bitset_to_pos` and `current_side_moves`;
- the old engine's range scan.

Some concepts are not defined in the files of the model; they get the definitions their uses require:
- `Piece::color()`: White exactly for indices 0–5.
- `Color::index()`: White ↦ 1, Black ↦ 2. `occupied[side.index()]` is the side's occupancy word.
- `Color::opposite()`.
- Two move shapes:
  - the one `make_move` destructures: `from`, `to`, `piece`, `capture`;
  - the one `parse_move` builds, which has a `MoveType`.

## Model

| member | source | states |
|---|---|---|
| Bitsets.New | src/bitset.rs:6-8 | square t of `new(v)` is set exactly when bit t of the u64 `v` is 1, for every square below 64 |
| Bitsets.Empty | src/bitset.rs:6-8 | `new(0)` holds no square |
| Bitsets.Bitset.SetBit | src/bitset.rs:10-12 | afterwards the square is set; every other square below 64 keeps its bit; the square must be below 64 |
| Bitsets.Bitset.ClearBit | src/bitset.rs:14-16 | afterwards the square is clear; every other square keeps its bit; the square must be below 64 |
| Bitsets.Bitset.Squares | src/bitset.rs:18-20 | the member set is exactly the squares below 64 whose bit `is_bit_set` reports |
| Bitsets.Bitset.Union | src/movegen.rs:43 | `|`: a square is in the union exactly when it is in either word |
| Bitsets.SetBitSquares | src/bitset.rs:10-12 | `set_bit(s)` adds exactly `s` to the member set |
| Bitsets.SetClearIdempotent | src/bitset.rs:10-16 | setting twice equals setting once; clearing twice equals clearing once |
| Bitsets.Extensionality | src/bitset.rs:18-20 | two words that agree on `is_bit_set` at every square are the same word |
| Pieces.Piece.Index | src/piece.rs:26-42 | the index is below 12 |
| Pieces.Piece.Color | src/board.rs:49-52 | a piece is White exactly when its index is below 6 |
| Pieces.Piece.SimpleChar | src/piece.rs:64-80 | the letter is the piece's index position in `PNBRQKpnbrqk`; upper case exactly for White and lower case exactly for Black |
| Pieces.FromIndex | src/piece.rs:44-62 | `Some` exactly for indices below 12, and then the piece has that index |
| Pieces.FromChar | src/piece.rs:82-100 | `Some` exactly for the twelve codes, and then `simple_char` of the piece is the character |
| Pieces.IndexRoundTrip | src/piece.rs:26-62 | `from_index(index(p)) == Some(p)`, and `index` is injective |
| Pieces.CharRoundTrip | src/piece.rs:64-100 | `from_char(simple_char(p)) == Some(p)` |
| Pieces.Color.Index | src/board.rs:49-52 | the colour slot is 1 or 2 |
| Pieces.Color.Opposite | src/movegen.rs:24 | the opposite colour differs |
| Pieces.ColorFromIndex | src/board.rs:49-52 | `Some` exactly for slots 1 and 2, and the colour has that slot |
| Pieces.ColorRoundTrip | src/board.rs:49-52 | slot and colour are inverse; `opposite` is an involution that swaps slots 1 and 2 |
| Positions.EmptyPosition | src/board.rs:18-27 | all 12 piece words and all 3 occupancy words are empty, White to move |
| Positions.Place | src/board.rs:41-55 | `set`: the square joins the piece's word, slot 0 and the piece's colour slot. The other piece words, the other colour slot, every other square and the side to move are unchanged |
| Positions.Remove | src/board.rs:57-71 | `clear`: the square leaves the piece's word, slot 0 and the colour slot. Nothing else changes |
| Positions.FirstHolder | src/board.rs:29-39 | the scan from word k on finds the lowest-index word holding the square, or `None` when no word from k on holds it |
| Positions.PieceAt | src/board.rs:29-39 | `get` returns the piece of the lowest-index word holding the square, or `None` exactly when no piece word holds it |
| Positions.PieceAtFromBits | src/board.rs:29-39 | `get` depends only on the piece words' bits at that square |
| Positions.PlaceRemoveElsewhere | src/board.rs:41-71 | `set` and `clear` do not change `get` on any other square |
| Positions.PlaceThenGet | src/board.rs:29-55 | after `set` on an empty square, `get` returns that piece there and the old piece everywhere else |
| Positions.RemoveThenGet | src/board.rs:29-71 | after `clear` of the only piece on a square, `get` there is `None`; everywhere else it is unchanged |
| Positions.EmptyConsistent | src/board.rs:18-27 | the empty board is consistent (piece words disjoint; slot 0 the union of the piece words; each colour slot the union of its six) and holds no piece |
| Positions.PlaceKeepsConsistent | src/board.rs:41-55 | `set` on an empty square keeps the board consistent |
| Positions.RemoveKeepsConsistent | src/board.rs:57-71 | `clear` of the piece that stands on the square keeps the board consistent and empties the square |
| Boards.Board.constructor | src/board.rs:18-27 | `Board::new` is the empty position with White to move |
| Boards.Board.Get | src/board.rs:29-39 | the loop over the piece array returns `PieceAt` of the board |
| Boards.Board.Set | src/board.rs:41-55 | the arrays afterwards hold `Place` of the old state |
| Boards.Board.Clear | src/board.rs:57-71 | the arrays afterwards hold `Remove` of the old state |
| Boards.Board.ReadChar | src/board.rs:87-99 | one character of a row: on rejection the row scan is rejected; otherwise the scan continues from the new file with the `set` applied |
| Boards.Board.ReadRow | src/board.rs:85-104 | the character loop: it fails exactly when the row scan is rejected; otherwise it returns the final file counter, and the board holds the row's `set` calls applied to the old board |
| Boards.Board.FromFen | src/board.rs:74-108 | `Some` exactly when the record parses, holding the parsed position, which satisfies the board invariant. The input must not reach the overflow described under Findings |
| Boards.Board.MakeMove | src/board.rs:110-131 | the board afterwards is `ApplyMove` of the old state |
| Strings.Split | src/board.rs:77 | `split` gives at least one piece, and no piece holds the separator |
| Strings.JoinSplit | src/board.rs:77 | rejoining the pieces gives back the string; there is one piece more than there are separators |
| Strings.SplitJoin | src/board.rs:84 | splitting pieces joined by a separator they do not contain gives back the pieces |
| Strings.SplitChars | src/board.rs:84 | a character is in some piece exactly when it is in the string and is not the separator |
| Fen.Classify | src/board.rs:88-97 | a character is a piece letter exactly when it is one of the twelve codes, which `simple_char` writes. It is a skip exactly for `1`–`8`, skipping that many files. Anything else ends the parse |
| Fen.ScanRow | src/board.rs:86-100 | every `set` of the row is on a board square; the checked variant never overflows |
| Fen.ScanLetterAt | src/board.rs:88-92 | a letter is placed at `rank*8+file`, and the file advances by one. A square past the board overflows (checked: rejects) |
| Fen.ScanSkipAt | src/board.rs:93-94 | a digit `d` advances the file by `d`. Past 255 the u8 counter overflows (checked: rejects) |
| Fen.ScanInvalidAt | src/board.rs:95-97 | any other character rejects the record |
| Fen.ParseRows | src/board.rs:84-105 | a parsed board is a valid position with the same side to move |
| Fen.ParseFen | src/board.rs:74-108 | a record without exactly 6 space-separated fields is rejected; a parsed board has White to move |
| Fen.RowShape | src/board.rs:86-100 | a row that scans has no invalid character; its final file is the start plus the number of files it describes; its `set` calls place its pieces on consecutive squares |
| Fen.TokensValid | src/board.rs:88-97 | no character of a row classifies as invalid exactly when all are piece codes or `1`–`8` |
| Fen.RowFits | src/board.rs:86-104 | a row of valid characters describing at most 8 files on one of the 8 ranks scans without failure |
| Fen.RowsAccepted | src/board.rs:84-105 | the rows parse exactly when they are well formed: at most 8 rows, only valid characters, at most 8 files each |
| Fen.FenAccepted | src/board.rs:74-108 | `from_fen` succeeds exactly when the record has 6 fields and a well-formed placement. This covers the rejections the tests assert: a wrong letter, a wrong character, too many files, too many rows |
| Fen.CheckedRow | src/board.rs:88-100 | on one row, the parser that checks bounds before `set` returns what the source returns, with rejection in place of the overflow |
| Fen.CheckedRows | src/board.rs:84-105 | the same over all rows |
| Fen.CheckedFen | src/board.rs:74-108 | the checked parser never overflows and agrees with `from_fen` wherever that succeeds or rejects |
| Fen.OverflowBeforeReject | src/board.rs:88-104 | a ninth row `p` and a last row `8p` overflow as written, before the row check that would reject them; the checked parser rejects both |
| Fen.PlaceCells | src/board.rs:86-100 | placing a run of described cells from a square on: squares before the run keep their pieces, the run's squares hold its cells, later squares stay empty |
| Fen.RowPlaces | src/board.rs:85-104 | after one parsed row, each of the rank's 8 squares holds what the row describes; earlier squares are unchanged and later ones are empty |
| Fen.RowsPlace | src/board.rs:84-105 | after all rows, every described square holds its described piece and every other square is empty |
| Fen.PlaceCellsConsistent | src/board.rs:86-100 | the `set` calls of a run of cells, on a consistent board empty from the run's first square, keep it consistent |
| Fen.RowConsistent | src/board.rs:84-105 | the `set` calls of one row that fits keep a consistent board, empty from that row on, consistent |
| Fen.RowsConsistent | src/board.rs:84-105 | decoding all rows, starting from a consistent board that is empty from the first row, gives a consistent board |
| Fen.FenConsistent | src/board.rs:74-108 | every board `from_fen` returns satisfies the board invariant: the piece words are disjoint, and each occupancy word is the union of its piece words |
| Fen.FenPlaces | src/board.rs:74-108 | after a successful `from_fen`, `get(rank, file)` is the piece the placement describes at (rank, file), or `None`, and White is to move |
| Targets.RayStep | src/movegen.rs:11-28 | one step of the ray: an own piece on the next square ends it empty; an enemy piece ends it with that square; an empty square is included and the walk goes on |
| Targets.ValidTargets | src/movegen.rs:46-72 | no targets from an empty square or for a piece of the side not to move; every target is on the board and not held by the side to move |
| Targets.RaySound | src/movegen.rs:8-28 | every square of a ray is reached by k ≥ 1 steps along the direction, with every earlier square empty, and is not the mover's |
| Targets.RayComplete | src/movegen.rs:8-28 | every square so reached is on the ray |
| Targets.RayExactly | src/movegen.rs:8-28 | a ray is exactly the reachable squares, in both directions |
| Targets.FirstEnemyEndsRay | src/movegen.rs:22-27 | the first enemy square along a ray is included, and no square beyond it is |
| Targets.SlidingIsUnionOfRays | src/movegen.rs:8-29 | the sliding targets are exactly the union of the rays of the given directions |
| Targets.RayStaysOffOwn | src/movegen.rs:11-20 | a ray contains no square of the side to move and never the origin |
| Targets.SlidingStaysOffOwn | src/movegen.rs:11-20 | the sliding targets contain no square of the side to move and never the origin |
| Targets.RayOnEmptyBoard | src/movegen.rs:11-28 | on a board where no colour occupies any square except possibly one off the line (the mover's own square), a ray is the whole line from the origin to the edge |
| Targets.RookLines | src/movegen.rs:34-36 | the four orthogonal lines from a square are exactly the other 14 squares of its rank and file |
| Targets.SlidingFour | src/movegen.rs:34-40 | four directions give the union of their four rays |
| Targets.RookOnEmptyBoard | src/movegen.rs:34-36 | on a board where nothing but the rook's own square is occupied, a rook reaches exactly the other 14 squares of its rank and file |
| MoveGen.SlidingMoves | src/movegen.rs:3-32 | the loop's word holds exactly the sliding targets of the directions |
| MoveGen.WalkRay | src/movegen.rs:9-28 | the walk along one direction adds exactly that direction's ray to the word |
| MoveGen.RookMoves | src/movegen.rs:34-36 | exactly the rook targets (the four orthogonal rays) |
| MoveGen.BishopMoves | src/movegen.rs:38-40 | exactly the bishop targets (the four diagonal rays) |
| MoveGen.QueenMoves | src/movegen.rs:42-44 | exactly the union of the rook and bishop targets |
| MoveGen.ValidMoves | src/movegen.rs:46-72 | exactly `ValidTargets`: empty from an empty square or out of turn, otherwise the piece's targets; never a square of the side to move |
| Moves.ToBoardMove | src/board.rs:111-116 | the two move shapes agree on from, to and piece, and `capture == Some(p)` exactly when the type is `Capture(p)` |
| Moves.ApplyMove | src/board.rs:110-131 | a move whose target the generator does not list leaves the board exactly as it was; any other move hands the turn to the other side exactly once |
| Moves.TargetIsNotOwn | src/board.rs:118-124 | a generated target is never the origin; the mover is the side to move; a captured piece is the other side's |
| Moves.RelocateKeepsConsistent | src/board.rs:123-124 | `clear` then `set` moves the piece from `from` to an empty `to`, keeps the occupancy mirrored, and changes no other square |
| Moves.QuietMoveEffects | src/board.rs:110-131 | a listed move without capture: the piece leaves `from` and stands on `to`; every other square is unchanged; occupancy stays mirrored; the turn passes |
| Moves.CaptureMoveEffects | src/board.rs:110-131 | a listed capture, as written: the mover leaves `from`, the captured piece's word no longer holds `to`, every other square keeps its piece, and the turn passes |
| Moves.CaptureEmptiesOccupied | src/board.rs:123-128 | as written, a listed capture leaves the mover on `to` but clears `to` from `occupied[0]`, so the occupancy is no longer mirrored |
| Moves.ApplyMoveCaptureFirst | src/board.rs:110-131 | the corrected order (remove the captured piece, then relocate) keeps the board unchanged for an unlisted move, and passes the turn otherwise |
| Moves.CaptureFirstKeepsConsistent | src/board.rs:110-131 | with the corrected order, every listed move: the piece leaves `from` and stands on `to`; other squares are unchanged; occupancy stays mirrored; the turn passes |
| Game.PosToIndex | src/main.rs:38-53 | `Some` exactly for a file `a`–`h` and a rank `1`–`8`, and then the pair is `(8 - rank, file - 'a')`: rank 0 is the 8th rank. Length other than 2, or a non-digit second character, is a panic and is excluded |
| Game.IndexToPos | src/main.rs:55-63 | `Some` exactly when both coordinates are below 8, and then the name is the letter `'a' + file` followed by the digit `8 - rank` |
| Game.IndexToPosRoundTrip | src/main.rs:38-63 | `pos_to_index(index_to_pos(i)) == Some(i)` for every on-board `i` |
| Game.PosToIndexRoundTrip | src/main.rs:38-63 | `index_to_pos(pos_to_index(s)) == Some(s)` for every accepted name |
| Game.BelowExact | src/main.rs:67-74 | the enumeration of a set below n holds exactly its members below n, strictly ascending |
| Game.SquareName | src/main.rs:69-71 | the name of square `rank*8+file` reads back through `pos_to_index` as (rank, file) |
| Game.BitsetToPos | src/main.rs:65-76 | the nested loops return the names of the set squares, in ascending square order |
| Game.BitsetNamesSet | src/main.rs:65-76 | every listed name names a set square |
| Game.BitsetNamesAll | src/main.rs:65-76 | every set square's name is listed |
| Game.BitsetNamesOrdered | src/main.rs:65-76 | names come from the 8th rank down, files a to h within a rank |
| Game.ParseMove | src/main.rs:78-104 | the moving piece is the one on `from`. The type is `Castling` exactly for the four `CASTLING_MOVES` pairs. Otherwise it is `Capture(p)` exactly when `to` holds `p`, and `Normal` exactly when `to` is empty. An empty `from` is a panic and is excluded |
| Game.ParsedMoveDescribed | src/main.rs:85-104 | a parsed non-castling move is a move `make_move` accepts in shape: its piece stands on `from`, and its capture is what stands on `to` |
| Game.PushMovesFrom | src/main.rs:112-123 | the inner loops append the parsed moves to every generated target of `from`, in target order |
| Game.PushRank | src/main.rs:116-122 | the file loop on one rank appends the parsed moves to the generated targets of that rank, in file order |
| Game.CurrentSideMoves | src/main.rs:106-128 | the result is the enumeration over all 64 origins |
| Game.MovesFromListed | src/main.rs:113-123 | every move listed from an origin starts there, has the origin's piece, and targets a generated square |
| Game.MovesFromComplete | src/main.rs:113-123 | every generated target of the origin has a listed move |
| Game.MovesFromOrdered | src/main.rs:113-123 | the moves from one origin are in strictly ascending target order |
| Game.SideMovesListed | src/main.rs:106-128 | every move starts on a square of the side to move and targets a square `valid_moves` lists from there |
| Game.SideMovesOrdered | src/main.rs:106-128 | moves are ordered by origin square, then by target square, with no repeats |
| CorePieces.Piece.SimpleChar | src/core/piece.rs:26-41 | the letter is one of `PNBRQKpnbrqk`, upper case exactly for White |
| CorePieces.FromChar | src/core/piece.rs:43-61 | `Some` exactly for `PNBRQKpnbrqk`. Upper case gives White and lower case Black. The piece's `simple_char` is the letter read |
| CorePieces.SimpleCharRoundTrip | src/core/piece.rs:26-61 | `from_char(simple_char(p))` is `p`, type and colour |
| CorePieces.SimpleCharInjective | src/core/piece.rs:26-41 | no two pieces share a letter |
| CoreBoards.Put | src/core/board.rs:169-173 | a write through `IndexMut` changes that square and no other |
| CoreBoards.Board.constructor | src/core/board.rs:8-11 | every one of the 64 squares is empty |
| CoreBoards.Board.Get | src/core/board.rs:161-167 | `Index` reads the square at (rank, file) |
| CoreBoards.Board.Set | src/core/board.rs:169-173 | `IndexMut` writes that square and leaves the other 63 |
| CoreBoards.LetterPiece | src/core/board.rs:22-44 | the colour is White exactly for an upper-case letter |
| CoreBoards.LetterPieceIsFromChar | src/core/board.rs:22-44 | the parser's letter decoding agrees with `Piece::from_char` |
| CoreBoards.LetterLands | src/core/board.rs:19-53 | each letter's piece lands at its file and stays there to the end of the row; the file counter only grows, so no later letter writes that file |
| CoreBoards.UnwrittenStaysEmpty | src/core/board.rs:19-53 | a file no letter reaches is not written by the row |
| CoreBoards.RowStep | src/core/board.rs:21-52 | one character: a letter writes its piece at the current file and advances one file; a digit `d` advances `d` files |
| CoreBoards.Board.ReadRow | src/core/board.rs:20-53 | after one row, each square of its rank that a letter reaches holds the last piece written there; every other square is unchanged |
| CoreBoards.Board.FromFen | src/core/board.rs:13-57 | every square holds the last piece its row writes at its file, and is empty when none does or its rank has no row |
| CoreBoards.ScanToTarget | src/core/board.rs:79-90 | a scan ending at its target accepts exactly when the cells before it are empty and the target is not the mover's |
| CoreBoards.MoveVerdictCases | src/core/board.rs:63-123 | false from an empty start and off the rank and file; true for the null move. Toward a higher index: true exactly for a clear path onto a square not the rook's colour. Toward a lower index: true exactly for an enemy on `end`, or an empty `end` behind a clear path |
| CoreBoards.OwnPieceBlocks | src/core/board.rs:79-108 | a rook move onto a piece of its own colour is always false |
| CoreBoards.ClearPathAccepted | src/core/board.rs:79-113 | a rook move along a clear path onto an empty square is always true |
| CoreBoards.BackwardCaptureAccepted | src/core/board.rs:74-108 | a move toward a lower rank or file onto an enemy is true whatever stands between |
| CoreBoards.Board.IsMoveValid | src/core/board.rs:63-123 | the loops over the rank or file range return `MoveVerdict`, including `false` for every move from an empty square (the rank-0 null move among them) |
| CoreBoards.Moved | src/core/board.rs:131-132 | the result is an 8×8 board |
| CoreBoards.MovedCells | src/core/board.rs:131-132 | between distinct squares: `end` receives `start`'s contents, `start` is empty, all other squares are unchanged |
| CoreBoards.Board.MakeMove | src/core/board.rs:125-133 | a refused move leaves the board unchanged; an accepted one leaves `Moved` |
| CoreBoards.FixedVerdictCases | src/core/board.rs:73-108 | the corrected check accepts exactly a rook move between distinct squares of one rank or file, with a clear path, onto a square not the rook's colour |
| CoreBoards.ChecksAgreeForward | src/core/board.rs:73-108 | the source's check and the corrected one agree on every move toward a higher index |
| CoreBoards.CaptureThroughOwnPiece | src/core/board.rs:74-90 | as written, a rook on (4,0) takes on (1,0) through its own pawn on (3,0); the corrected check refuses it |
| CoreBoards.NullMoveErasesRook | src/core/board.rs:73-133 | as written, a rook off rank 0 may move to its own square, and `make_move` then empties the square; the corrected check refuses it |

## Left out

- Display and printing: the `Display` impls and `Board::print` are text formatting.
- The interactive loop: `main`, `Game::new`, and the `println!` diagnostics in `valid_moves` and the old `is_move_valid`/`make_move` are I/O.
- Pawn, knight and king generation. The source has `todo!()` there, and the old engine has `unimplemented!()` for every non-rook piece. `GeneratorDefined` and `RookOrEmpty` exclude those pieces by precondition.
- Castling rights (`can_castle`, `CASTLING_FLAGS`) are not part of this model. Only `parse_move`'s `CASTLING_MOVES` table is.
- FEN fields 2–6: only their count is checked, and the old engine reads only field 1. `Board::starting_pos` is only a call of `from_fen` on a constant.
- The FEN unit tests' concrete records are not restated one by one. `Fen.FenAccepted` and `Fen.FenPlaces` state, for every record, the acceptance and the placement those tests sample.
- Panics are preconditions, not behaviour:
  - `unwrap`;
  - `panic!` in `pos_to_index`, `parse_move` and the old `from_fen`;
  - an out-of-range array index in the old `from_fen`;
  - `1 << square` for a square of 64 or more;
  - the `start.0 - 1` underflow of the null move on rank 0 from an occupied square (from an empty square the check returns `false` first, and the model does the same);
  - the `to_digit(10).unwrap() as usize - 1` underflow of the digit `0` in the old `from_fen` (src/core/board.rs:47).
- Game.PosToIndex: the source tests the length in bytes; the model takes two characters, the first ASCII and the second a digit. This is the same set of inputs on which the function does not panic.
- Game.IsDigit: `is_numeric` and `to_digit(10)` are modelled on ASCII digits only.
- Bitsets.Bitset.SetBit, ClearBit: `&mut self` on a `Copy` u64 is modelled as a function returning the new word. Each caller stores it back in the array slot or local it came from.
- Bitsets.Bitset.Union: src/bitset.rs defines no `BitOr` for `Bitset`, yet src/movegen.rs:43 writes `|` on two of them. The model reads `|` as bitwise OR of the two words.
- Integer widths: `u8` ranks, files and squares are `nat` below their bound. The one overflow that can happen in `from_fen` is modelled explicitly (`MaxU8`, and squares of 64 or more).
- Boards.Board.ReadChar, MoveGen.WalkRay, Game.PushMovesFrom, Game.PushRank: each is the body of one loop of the source, put in a method of its own. The source's loop calls it.
- Boards.Board.FromFen: requires that the record does not reach the overflow of `set`, where the source panics. `Fen.CheckedFen` states the behaviour with that input rejected.
- Boards.Board.MakeMove and CoreBoards.Board.MakeMove keep the source's behaviour, including the defects listed below. The corrected definitions stand beside them.

## Findings

| source | as written | input that shows it | evidently intended | confidence | as-written member | corrected member |
|---|---|---|---|---|---|---|
| src/board.rs:88-104 | `from_fen` calls `set` for a letter before checking the row's file count and the rank count | a ninth row `p`, or a last row `8p` (square 64 reaches `1 << square`) | the record is rejected with `None`, as for the other malformed placements | high, not executed | Fen.OverflowBeforeReject | Fen.CheckedFen |
| src/board.rs:123-128 | `make_move` clears the captured piece from `to` after the mover is set there, which also clears `occupied[0]` at `to` | any listed capture | `occupied[0]` still holds the mover's square, so the occupancy words stay the union of the piece words | high, not executed | Moves.CaptureEmptiesOccupied | Moves.CaptureFirstKeepsConsistent |
| src/core/board.rs:74-77 | for a move toward a lower rank (and files, lines 92-95) the scan starts at `end`, so the first occupied cell met is `end` | white rook (4,0), white pawn (3,0), black pawn (1,0); move (4,0)→(1,0) is accepted | the scan starts next to the rook, so the own pawn blocks | high, not executed | CoreBoards.CaptureThroughOwnPiece | CoreBoards.FixedVerdictCases |
| src/core/board.rs:73-113 | with `start == end` the range is empty and the move is valid; `make_move` then empties the square | a rook on (3,0) moved to (3,0) disappears | the null move is not a move | medium, not executed | CoreBoards.NullMoveErasesRook | CoreBoards.FixedVerdictCases |
