/**
 * The board of the older array engine (src/core/board.rs): an 8x8 array of
 * squares indexed by (rank, file), rank 0 being the eighth rank. It reads
 * the first field of a FEN record, checks rook moves by scanning the rank
 * or file between start and end, and moves a piece by copying it to the
 * end square and emptying the start square.
 *
 * The array is the state of `Board`; `Grid` is a value snapshot of it on
 * which the move check is specified, so that its properties can be stated
 * and shown on concrete boards.
 */
module CoreBoards {
  import opened Wrappers
  import opened CorePieces
  import opened Strings

  // ---------------------------------------------------------------------
  // Snapshots of the array

  /** Row `rank`, column `file`. */
  type Grid = seq<seq<Square>>

  predicate Sized(g: Grid)
  {
    |g| == 8 && forall r :: 0 <= r < 8 ==> |g[r]| == 8
  }

  predicate OnBoard(index: (nat, nat))
  {
    index.0 < 8 && index.1 < 8
  }

  function At(g: Grid, index: (nat, nat)): Square
    requires Sized(g) && OnBoard(index)
  {
    g[index.0][index.1]
  }

  /** The snapshot after one write through `IndexMut`. */
  function Put(g: Grid, index: (nat, nat), sq: Square): (h: Grid)
    requires Sized(g) && OnBoard(index)
    ensures Sized(h)
    ensures forall i :: OnBoard(i) ==> At(h, i) == if i == index then sq else At(g, i)
  {
    g[index.0 := g[index.0][index.1 := sq]]
  }

  predicate Empty(g: Grid, index: (nat, nat))
    requires Sized(g) && OnBoard(index)
  {
    At(g, index).content.None?
  }

  /** Empty, or holding a piece of the other colour. */
  predicate NotOwn(g: Grid, index: (nat, nat), color: Color)
    requires Sized(g) && OnBoard(index)
  {
    At(g, index).content.None? || At(g, index).content.value.color != color
  }

  // ---------------------------------------------------------------------
  // Moves

  /** A move of the old engine: the square left and the square reached. */
  datatype CoreMove = CoreMove(start: (nat, nat), end: (nat, nat))

  predicate OnBoardMove(m: CoreMove)
  {
    OnBoard(m.start) && OnBoard(m.end)
  }

  /** `is_move_valid` handles only rooks; any other piece on the start
      square is `unimplemented!`. */
  predicate RookOrEmpty(g: Grid, index: (nat, nat))
    requires Sized(g) && OnBoard(index)
  {
    At(g, index).content.None? || At(g, index).content.value.pieceType == Rook
  }

  /** The rank range `start.0 - 1` underflows only for the null move on
      rank 0 from an occupied square; from an empty square the check returns
      before the range is built. */
  predicate NoUnderflow(g: Grid, m: CoreMove)
    requires Sized(g) && OnBoardMove(m)
  {
    !(m.start == m.end && m.start.0 == 0 && At(g, m.start).content.Some?)
  }

  predicate SameLine(m: CoreMove)
  {
    m.start.0 == m.end.0 || m.start.1 == m.end.1
  }

  /** A move toward a lower rank or a lower file. */
  predicate Backward(m: CoreMove)
  {
    if m.start.1 == m.end.1 then m.end.0 < m.start.0 else m.end.1 < m.start.1
  }

  /** `k` lies strictly between `a` and `b`. */
  predicate Strictly(a: int, k: int, b: int)
  {
    a < k < b || b < k < a
  }

  /** Cell `k` of a file (`vertical`) or of a rank. */
  function Along(vertical: bool, line: nat, k: nat): (nat, nat)
  {
    if vertical then (k, line) else (line, k)
  }

  /** Every cell strictly between start and end along their shared file (or
      rank) is empty. */
  ghost predicate PathClear(g: Grid, m: CoreMove)
    requires Sized(g) && OnBoardMove(m) && SameLine(m)
  {
    if m.start.1 == m.end.1 then
      forall k: nat :: Strictly(m.start.0, k, m.end.0) ==> Empty(g, Along(true, m.start.1, k))
    else
      forall k: nat :: Strictly(m.start.1, k, m.end.1) ==> Empty(g, Along(false, m.start.0, k))
  }

  /** The loop of `is_move_valid` over the inclusive range `lo..=hi`, in
      ascending order: the first occupied cell decides, `false` for a piece
      of the mover's colour and otherwise whether it is the target; with no
      occupied cell the move is valid. */
  function Scan(g: Grid, color: Color, vertical: bool, line: nat, lo: int, hi: int, target: int): bool
    requires Sized(g) && line < 8 && 0 <= lo && hi < 8
    decreases hi - lo
  {
    if lo > hi then true
    else match At(g, Along(vertical, line, lo)).content
      case Some(p) => if p.color == color then false else lo == target
      case None => Scan(g, color, vertical, line, lo + 1, hi, target)
  }

  /** `is_move_valid` for a move of a rook, or from an empty square. */
  function MoveVerdict(g: Grid, m: CoreMove): bool
    requires Sized(g) && OnBoardMove(m) && RookOrEmpty(g, m.start) && NoUnderflow(g, m)
  {
    match At(g, m.start).content
    case None => false
    case Some(rook) =>
      if m.start.1 == m.end.1 then
        if m.start.0 < m.end.0 then Scan(g, rook.color, true, m.start.1, m.start.0 + 1, m.end.0, m.end.0)
        else Scan(g, rook.color, true, m.start.1, m.end.0, m.start.0 - 1, m.end.0)
      else if m.start.0 == m.end.0 then
        if m.start.1 < m.end.1 then Scan(g, rook.color, false, m.start.0, m.start.1 + 1, m.end.1, m.end.1)
        else Scan(g, rook.color, false, m.start.0, m.end.1, m.start.1 - 1, m.end.1)
      else false
  }

  /** The scan of a backward move run from the start square down to `lo`,
      as the corrected check does. */
  function ScanDown(g: Grid, color: Color, vertical: bool, line: nat, hi: int, lo: int, target: int): bool
    requires Sized(g) && line < 8 && 0 <= lo && hi < 8
    decreases hi - lo
  {
    if hi < lo then true
    else match At(g, Along(vertical, line, hi)).content
      case Some(p) => if p.color == color then false else hi == target
      case None => ScanDown(g, color, vertical, line, hi - 1, lo, target)
  }

  /** The rook check as intended: every scan starts next to the rook, and
      the null move is refused. */
  function FixedVerdict(g: Grid, m: CoreMove): bool
    requires Sized(g) && OnBoardMove(m) && RookOrEmpty(g, m.start)
  {
    match At(g, m.start).content
    case None => false
    case Some(rook) =>
      if m.start == m.end then false
      else if m.start.1 == m.end.1 then
        if m.start.0 < m.end.0 then Scan(g, rook.color, true, m.start.1, m.start.0 + 1, m.end.0, m.end.0)
        else ScanDown(g, rook.color, true, m.start.1, m.start.0 - 1, m.end.0, m.end.0)
      else if m.start.0 == m.end.0 then
        if m.start.1 < m.end.1 then Scan(g, rook.color, false, m.start.0, m.start.1 + 1, m.end.1, m.end.1)
        else ScanDown(g, rook.color, false, m.start.0, m.start.1 - 1, m.end.1, m.end.1)
      else false
  }

  /** `make_move` once the check has passed: the end square receives the
      start square's contents, then the start square is emptied. */
  function Moved(g: Grid, m: CoreMove): (h: Grid)
    requires Sized(g) && OnBoardMove(m)
    ensures Sized(h)
  {
    Put(Put(g, m.end, At(g, m.start)), m.start, Square(None))
  }

  // ---------------------------------------------------------------------
  // What the scans decide

  /** An ascending scan that ends at its target: valid exactly when the
      cells before the target are empty and the target is not the mover's. */
  lemma {:induction false} ScanToTarget(g: Grid, color: Color, vertical: bool, line: nat, lo: int, hi: int)
    requires Sized(g) && line < 8 && 0 <= lo <= hi < 8
    ensures Scan(g, color, vertical, line, lo, hi, hi) <==>
              (forall k: nat :: lo <= k < hi ==> Empty(g, Along(vertical, line, k))) &&
              NotOwn(g, Along(vertical, line, hi), color)
    decreases hi - lo
  {
    if lo < hi && Empty(g, Along(vertical, line, lo)) {
      ScanToTarget(g, color, vertical, line, lo + 1, hi);
    }
  }

  /** An ascending scan past its target: valid exactly when every cell it
      visits is empty. */
  lemma {:induction false} ScanPastTarget(g: Grid, color: Color, vertical: bool, line: nat, lo: int, hi: int, target: int)
    requires Sized(g) && line < 8 && 0 <= lo && hi < 8 && target < lo
    ensures Scan(g, color, vertical, line, lo, hi, target) <==>
              forall k: nat :: lo <= k <= hi ==> Empty(g, Along(vertical, line, k))
    decreases hi - lo
  {
    if lo <= hi && Empty(g, Along(vertical, line, lo)) {
      ScanPastTarget(g, color, vertical, line, lo + 1, hi, target);
    }
  }

  /** An ascending scan that starts at its target: valid when the target
      holds an enemy, whatever lies beyond it; when the target is empty,
      valid exactly when the rest of the range is empty. */
  lemma ScanFromTarget(g: Grid, color: Color, vertical: bool, line: nat, lo: int, hi: int)
    requires Sized(g) && line < 8 && 0 <= lo <= hi < 8
    ensures Scan(g, color, vertical, line, lo, hi, lo) <==>
              (NotOwn(g, Along(vertical, line, lo), color) && !Empty(g, Along(vertical, line, lo))) ||
              (Empty(g, Along(vertical, line, lo)) &&
               forall k: nat :: lo < k <= hi ==> Empty(g, Along(vertical, line, k)))
  {
    ScanPastTarget(g, color, vertical, line, lo + 1, hi, lo);
  }

  /** A descending scan that ends at its target. */
  lemma {:induction false} ScanDownToTarget(g: Grid, color: Color, vertical: bool, line: nat, hi: int, lo: int)
    requires Sized(g) && line < 8 && 0 <= lo <= hi < 8
    ensures ScanDown(g, color, vertical, line, hi, lo, lo) <==>
              (forall k: nat :: lo < k <= hi ==> Empty(g, Along(vertical, line, k))) &&
              NotOwn(g, Along(vertical, line, lo), color)
    decreases hi - lo
  {
    if lo < hi && Empty(g, Along(vertical, line, hi)) {
      ScanDownToTarget(g, color, vertical, line, hi - 1, lo);
    }
  }

  // ---------------------------------------------------------------------
  // Properties of `is_move_valid`

  /** The whole of `is_move_valid`: no piece, or start and end on neither a
      common rank nor a common file, is invalid; the null move is valid; a
      forward move is valid exactly when the path is clear and the end is
      not the mover's; a backward move is valid when the end holds an enemy,
      whatever stands between, and otherwise exactly when the end and the
      path are empty. */
  lemma MoveVerdictCases(g: Grid, m: CoreMove)
    requires Sized(g) && OnBoardMove(m) && RookOrEmpty(g, m.start) && NoUnderflow(g, m)
    ensures At(g, m.start).content.None? ==> !MoveVerdict(g, m)
    ensures !SameLine(m) ==> !MoveVerdict(g, m)
    ensures At(g, m.start).content.Some? && m.start == m.end ==> MoveVerdict(g, m)
    ensures At(g, m.start).content.Some? && SameLine(m) && m.start != m.end && !Backward(m) ==>
              (MoveVerdict(g, m) <==> PathClear(g, m) && NotOwn(g, m.end, At(g, m.start).content.value.color))
    ensures At(g, m.start).content.Some? && SameLine(m) && m.start != m.end && Backward(m) ==>
              (MoveVerdict(g, m) <==>
                 (!Empty(g, m.end) && NotOwn(g, m.end, At(g, m.start).content.value.color)) ||
                 (Empty(g, m.end) && PathClear(g, m)))
  {
    if At(g, m.start).content.Some? && SameLine(m) && m.start != m.end {
      var color := At(g, m.start).content.value.color;
      if m.start.1 == m.end.1 {
        if m.start.0 < m.end.0 {
          ScanToTarget(g, color, true, m.start.1, m.start.0 + 1, m.end.0);
        } else {
          ScanFromTarget(g, color, true, m.start.1, m.end.0, m.start.0 - 1);
        }
      } else {
        if m.start.1 < m.end.1 {
          ScanToTarget(g, color, false, m.start.0, m.start.1 + 1, m.end.1);
        } else {
          ScanFromTarget(g, color, false, m.start.0, m.end.1, m.start.1 - 1);
        }
      }
    }
  }

  /** A rook never lands on a piece of its own colour, except by the null
      move. */
  lemma OwnPieceBlocks(g: Grid, m: CoreMove)
    requires Sized(g) && OnBoardMove(m) && RookOrEmpty(g, m.start) && NoUnderflow(g, m)
    requires m.start != m.end && At(g, m.start).content.Some? && !NotOwn(g, m.end, At(g, m.start).content.value.color)
    ensures !MoveVerdict(g, m)
  {
    MoveVerdictCases(g, m);
  }

  /** A rook move along a clear path to an empty square is valid. */
  lemma ClearPathAccepted(g: Grid, m: CoreMove)
    requires Sized(g) && OnBoardMove(m) && RookOrEmpty(g, m.start) && NoUnderflow(g, m)
    requires At(g, m.start).content.Some? && SameLine(m) && m.start != m.end
    requires PathClear(g, m) && Empty(g, m.end)
    ensures MoveVerdict(g, m)
  {
    MoveVerdictCases(g, m);
  }

  /** The backward scan starts at the end square, so an enemy there makes
      the move valid whatever stands between. */
  lemma BackwardCaptureAccepted(g: Grid, m: CoreMove)
    requires Sized(g) && OnBoardMove(m) && RookOrEmpty(g, m.start) && NoUnderflow(g, m)
    requires At(g, m.start).content.Some? && SameLine(m) && m.start != m.end && Backward(m)
    requires !Empty(g, m.end) && NotOwn(g, m.end, At(g, m.start).content.value.color)
    ensures MoveVerdict(g, m)
  {
    MoveVerdictCases(g, m);
  }

  /** The corrected check accepts exactly the rook moves of chess: to a
      different square on the same rank or file, along a clear path, onto a
      square the mover does not hold. */
  lemma FixedVerdictCases(g: Grid, m: CoreMove)
    requires Sized(g) && OnBoardMove(m) && RookOrEmpty(g, m.start)
    ensures FixedVerdict(g, m) <==>
              At(g, m.start).content.Some? && m.start != m.end && SameLine(m) && PathClear(g, m) &&
              NotOwn(g, m.end, At(g, m.start).content.value.color)
  {
    if At(g, m.start).content.Some? && SameLine(m) && m.start != m.end {
      var color := At(g, m.start).content.value.color;
      if m.start.1 == m.end.1 {
        if m.start.0 < m.end.0 {
          ScanToTarget(g, color, true, m.start.1, m.start.0 + 1, m.end.0);
        } else {
          ScanDownToTarget(g, color, true, m.start.1, m.start.0 - 1, m.end.0);
        }
      } else {
        if m.start.1 < m.end.1 {
          ScanToTarget(g, color, false, m.start.0, m.start.1 + 1, m.end.1);
        } else {
          ScanDownToTarget(g, color, false, m.start.0, m.start.1 - 1, m.end.1);
        }
      }
    }
  }

  /** Both checks agree on every move but a backward capture through a
      piece and the null move. */
  lemma ChecksAgreeForward(g: Grid, m: CoreMove)
    requires Sized(g) && OnBoardMove(m) && RookOrEmpty(g, m.start) && NoUnderflow(g, m)
    requires m.start != m.end && !Backward(m)
    ensures MoveVerdict(g, m) == FixedVerdict(g, m)
  {
    MoveVerdictCases(g, m);
    FixedVerdictCases(g, m);
  }

  /** The board of the counterexample: a white rook on (4, 0), a white pawn
      on (3, 0) and a black pawn on (1, 0). */
  function BlockedFile(): (g: Grid)
    ensures Sized(g)
  {
    seq(8, r => seq(8, f =>
      if (r, f) == (4, 0) then Square(Some(Piece(Rook, White)))
      else if (r, f) == (3, 0) then Square(Some(Piece(Pawn, White)))
      else if (r, f) == (1, 0) then Square(Some(Piece(Pawn, Black)))
      else Square(None)))
  }

  /** As written, the rook on (4, 0) may take on (1, 0) through its own pawn
      on (3, 0); the corrected check refuses it. */
  lemma CaptureThroughOwnPiece()
    ensures MoveVerdict(BlockedFile(), CoreMove((4, 0), (1, 0)))
    ensures !FixedVerdict(BlockedFile(), CoreMove((4, 0), (1, 0)))
  {
    var g := BlockedFile();
    var m := CoreMove((4, 0), (1, 0));
    BackwardCaptureAccepted(g, m);
    FixedVerdictCases(g, m);
    assert Strictly(4, 3, 1) && !Empty(g, (3, 0));
  }

  /** As written, a rook off rank 0 may "move" to its own square, and
      `make_move` then empties that square; the corrected check refuses the
      null move. */
  lemma NullMoveErasesRook(g: Grid, s: (nat, nat))
    requires Sized(g) && OnBoard(s) && s.0 > 0
    requires At(g, s).content.Some? && At(g, s).content.value.pieceType == Rook
    ensures MoveVerdict(g, CoreMove(s, s))
    ensures Empty(Moved(g, CoreMove(s, s)), s)
    ensures !FixedVerdict(g, CoreMove(s, s))
  {
    MoveVerdictCases(g, CoreMove(s, s));
  }

  /** A move between two squares puts the start square's piece on the end
      square, empties the start square, and leaves every other square. */
  lemma MovedCells(g: Grid, m: CoreMove)
    requires Sized(g) && OnBoardMove(m) && m.start != m.end
    ensures At(Moved(g, m), m.end) == At(g, m.start)
    ensures Empty(Moved(g, m), m.start)
    ensures forall i :: OnBoard(i) && i != m.start && i != m.end ==> At(Moved(g, m), i) == At(g, i)
  {
  }

  // ---------------------------------------------------------------------
  // Reading a FEN record

  predicate IsAsciiAlphabetic(c: char)
  {
    'a' <= c <= 'z' || 'A' <= c <= 'Z'
  }

  function ToAsciiLowercase(c: char): char
  {
    if 'A' <= c <= 'Z' then (c as int + 32) as char else c
  }

  /** The `match piece_name` of `from_fen`; its `_` arm panics. */
  function NameType(name: char): Option<PieceType>
  {
    match name
    case 'p' => Some(Pawn)
    case 'n' => Some(Knight)
    case 'b' => Some(Bishop)
    case 'r' => Some(Rook)
    case 'q' => Some(Queen)
    case 'k' => Some(King)
    case _ => None
  }

  /** The piece `from_fen` makes of a letter: the colour from its case, the
      type from its lower-case form. */
  function LetterPiece(c: char): (r: Option<Piece>)
    requires IsAsciiAlphabetic(c)
    ensures r.Some? ==> (r.value.color == White <==> 'A' <= c <= 'Z')
  {
    var color := if 'A' <= c <= 'Z' then White else Black;
    match NameType(ToAsciiLowercase(c))
    case Some(pieceType) => Some(Piece(pieceType, color))
    case None => None
  }

  /** `from_fen` reads letters exactly as `from_char` does. */
  lemma LetterPieceIsFromChar(c: char)
    requires IsAsciiAlphabetic(c)
    ensures LetterPiece(c) == FromChar(c)
  {
    if 'A' <= c <= 'Z' {
      assert ToAsciiLowercase(c) == (c as int + 32) as char;
    }
  }

  /** How far one character moves the file counter: a digit by its value,
      anything else by one. */
  function Advance(c: char): nat
  {
    if '1' <= c <= '9' then c as int - '0' as int else 1
  }

  /** The file counter of `from_fen` after the first `k` characters of a
      row. */
  function FileAfter(row: string, k: nat): nat
    requires k <= |row|
  {
    if k == 0 then 0 else FileAfter(row, k - 1) + Advance(row[k - 1])
  }

  /** Character `k` of row `rank` does not make `from_fen` panic: a letter
      must name a piece and fall on the board; any other character must be
      a digit other than 0 (`to_digit` fails on the rest, and 0 underflows
      `usize`). */
  predicate CharFine(row: string, rank: nat, k: nat)
    requires k < |row|
  {
    if IsAsciiAlphabetic(row[k]) then LetterPiece(row[k]).Some? && rank < 8 && FileAfter(row, k) < 8
    else '1' <= row[k] <= '9'
  }

  predicate RowFine(row: string, rank: nat)
  {
    forall k :: 0 <= k < |row| ==> CharFine(row, rank, k)
  }

  /** The rows of the first field of a record. */
  function Rows(fen: string): seq<string>
  {
    Split(Split(fen, ' ')[0], '/')
  }

  /** A record on which `from_fen` does not panic. */
  predicate FenFine(fen: string)
  {
    forall rank :: 0 <= rank < |Rows(fen)| ==> RowFine(Rows(fen)[rank], rank)
  }

  /** What the first `k` characters of a row leave at `file`: the last
      letter written there. */
  function PlacedAt(row: string, k: nat, file: nat): Option<Piece>
    requires k <= |row|
  {
    if k == 0 then None
    else if IsAsciiAlphabetic(row[k - 1]) && FileAfter(row, k - 1) == file then LetterPiece(row[k - 1])
    else PlacedAt(row, k - 1, file)
  }

  /** What `from_fen` leaves on (rank, file). */
  function Expected(rows: seq<string>, rank: nat, file: nat): Option<Piece>
  {
    if rank < |rows| then PlacedAt(rows[rank], |rows[rank]|, file) else None
  }

  /** The file counter only grows. */
  lemma {:induction false} FileAfterGrows(row: string, k: nat, j: nat)
    requires k < j <= |row|
    ensures FileAfter(row, k) < FileAfter(row, j)
    decreases j
  {
    if k < j - 1 {
      FileAfterGrows(row, k, j - 1);
    }
  }

  /** A letter of a row puts its piece on the file the counter shows when
      it is read, and no later character writes over it. */
  lemma {:induction false} LetterLands(row: string, k: nat, n: nat)
    requires k < n <= |row| && IsAsciiAlphabetic(row[k])
    ensures PlacedAt(row, n, FileAfter(row, k)) == LetterPiece(row[k])
    decreases n
  {
    if k < n - 1 {
      FileAfterGrows(row, k, n - 1);
      LetterLands(row, k, n - 1);
    }
  }

  /** A file no letter of the row reaches stays empty. */
  lemma {:induction false} UnwrittenStaysEmpty(row: string, n: nat, file: nat)
    requires n <= |row|
    requires forall k :: 0 <= k < n && IsAsciiAlphabetic(row[k]) ==> FileAfter(row, k) != file
    ensures PlacedAt(row, n, file).None?
    decreases n
  {
    if n > 0 {
      UnwrittenStaysEmpty(row, n - 1, file);
    }
  }

  /** One more character of a panic-free row: how the file counter moves
      and what is written. */
  lemma RowStep(row: string, rank: nat, k: nat, f: nat)
    requires k < |row| && CharFine(row, rank, k)
    ensures IsAsciiAlphabetic(row[k]) ==>
              rank < 8 && FileAfter(row, k) < 8 && LetterPiece(row[k]).Some? &&
              FileAfter(row, k + 1) == FileAfter(row, k) + 1
    ensures !IsAsciiAlphabetic(row[k]) ==>
              '1' <= row[k] <= '9' && FileAfter(row, k + 1) == FileAfter(row, k) + (row[k] as int - '0' as int)
    ensures PlacedAt(row, k + 1, f) ==
              if IsAsciiAlphabetic(row[k]) && FileAfter(row, k) == f then LetterPiece(row[k]) else PlacedAt(row, k, f)
  {
  }

  // ---------------------------------------------------------------------
  // The board

  class Board {
    /** The 8x8 array, indexed `[rank, file]`. */
    const grid: array2<Square>

    predicate Valid()
    {
      grid.Length0 == 8 && grid.Length1 == 8
    }

    /** The array's current contents. */
    function Cells(): (g: Grid)
      requires Valid()
      reads grid
      ensures Sized(g)
      ensures forall r, f :: 0 <= r < 8 && 0 <= f < 8 ==> g[r][f] == grid[r, f]
    {
      seq(8, r requires 0 <= r < 8 reads grid => seq(8, f requires 0 <= f < 8 reads grid => grid[r, f]))
    }

    /** `Board::new`: all 64 squares empty. */
    constructor()
      ensures Valid() && fresh(grid)
      ensures forall i :: OnBoard(i) ==> Empty(Cells(), i)
      ensures forall r, f :: 0 <= r < 8 && 0 <= f < 8 ==> grid[r, f] == Square(None)
    {
      grid := new Square[8, 8]((r, f) => Square(None));
    }

    /** `Index`: the square at (rank, file). */
    function Get(index: (nat, nat)): (sq: Square)
      requires Valid() && OnBoard(index)
      reads grid
      ensures sq == At(Cells(), index)
    {
      grid[index.0, index.1]
    }

    /** `IndexMut`: a write of one square. */
    method Set(index: (nat, nat), sq: Square)
      requires Valid() && OnBoard(index)
      modifies grid
      ensures Cells() == Put(old(Cells()), index, sq)
      ensures forall r, f :: 0 <= r < 8 && 0 <= f < 8 ==>
                grid[r, f] == if (r, f) == index then sq else old(grid[r, f])
    {
      grid[index.0, index.1] := sq;
      ghost var h := Put(old(Cells()), index, sq);
      forall r | 0 <= r < 8
        ensures Cells()[r] == h[r]
      {
        assert forall f :: 0 <= f < 8 ==> Cells()[r][f] == At(h, (r, f));
      }
    }

    /** The character loop of `from_fen` over row `rank`: each letter is
        written on (rank, file) and each digit moves the file on by its
        value; nothing else changes. */
    method ReadRow(rank: nat, row: string)
      requires Valid() && RowFine(row, rank)
      modifies grid
      ensures forall r, f :: 0 <= r < 8 && 0 <= f < 8 ==>
                grid[r, f] == if r == rank && PlacedAt(row, |row|, f).Some? then Square(PlacedAt(row, |row|, f))
                              else old(grid[r, f])
    {
      var file := 0;
      for k := 0 to |row|
        invariant file == FileAfter(row, k)
        invariant forall r, f :: 0 <= r < 8 && 0 <= f < 8 ==>
                    grid[r, f] == if r == rank && PlacedAt(row, k, f).Some? then Square(PlacedAt(row, k, f))
                                  else old(grid[r, f])
      {
        var c := row[k];
        assert CharFine(row, rank, k);
        forall f: nat | f < 8
          ensures PlacedAt(row, k + 1, f) ==
                    if IsAsciiAlphabetic(c) && file == f then LetterPiece(c) else PlacedAt(row, k, f)
        {
          RowStep(row, rank, k, f);
        }
        RowStep(row, rank, k, 0);
        if IsAsciiAlphabetic(c) {
          var color := if 'A' <= c <= 'Z' then White else Black;
          var name := ToAsciiLowercase(c);
          var pieceType := NameType(name).value;
          assert Piece(pieceType, color) == LetterPiece(c).value;
          Set((rank, file), Square(Some(Piece(pieceType, color))));
        } else {
          // `is_numeric`: only the digits 1..9 reach here
          file := file + (c as int - '0' as int) - 1;
        }
        file := file + 1;
      }
    }

    /** `Board::from_fen`, for a record on which it does not panic: every
        letter of row `rank` puts its piece on (rank, file), every digit
        moves the file on by its value, and the rest of the board is empty. */
    static method FromFen(fen: string) returns (board: Board)
      requires FenFine(fen)
      ensures board.Valid() && fresh(board.grid)
      ensures forall i :: OnBoard(i) ==> At(board.Cells(), i) == Square(Expected(Rows(fen), i.0, i.1))
    {
      board := new Board();
      var position := Split(fen, ' ')[0];
      var rows := Split(position, '/');
      assert rows == Rows(fen);
      for rank := 0 to |rows|
        invariant board.Valid() && fresh(board.grid)
        invariant forall r, f :: 0 <= r < 8 && 0 <= f < 8 ==>
                    board.grid[r, f] == Square(if r < rank then Expected(rows, r, f) else None)
      {
        assert RowFine(rows[rank], rank);
        board.ReadRow(rank, rows[rank]);
      }
    }

    /** `is_move_valid`, for a move of a rook or from an empty square, with
        no `usize` underflow: the verdict `MoveVerdict` gives the board. */
    method IsMoveValid(m: CoreMove) returns (valid: bool)
      requires Valid() && OnBoardMove(m) && RookOrEmpty(Cells(), m.start) && NoUnderflow(Cells(), m)
      ensures valid == MoveVerdict(Cells(), m)
    {
      var start, end := m.start, m.end;
      var startPiece := Get(start).content;
      if startPiece.None? {
        return false;
      }
      var color := startPiece.value.color;
      if start.1 == end.1 {
        var lo: int, hi: int := if start.0 < end.0 then start.0 + 1 else end.0, if start.0 < end.0 then end.0 else start.0 - 1;
        var rank := lo;
        while rank <= hi
          invariant lo <= rank <= hi + 1
          invariant Scan(Cells(), color, true, start.1, lo, hi, end.0) == Scan(Cells(), color, true, start.1, rank, hi, end.0)
          decreases hi - rank
        {
          var currentPiece := Get((rank, start.1)).content;
          if currentPiece.Some? {
            if currentPiece.value.color == color {
              return false;
            } else {
              return rank == end.0;
            }
          }
          rank := rank + 1;
        }
      } else if start.0 == end.0 {
        var lo: int, hi: int := if start.1 < end.1 then start.1 + 1 else end.1, if start.1 < end.1 then end.1 else start.1 - 1;
        var file := lo;
        while file <= hi
          invariant lo <= file <= hi + 1
          invariant Scan(Cells(), color, false, start.0, lo, hi, end.1) == Scan(Cells(), color, false, start.0, file, hi, end.1)
          decreases hi - file
        {
          var currentPiece := Get((start.0, file)).content;
          if currentPiece.Some? {
            if currentPiece.value.color == color {
              return false;
            } else {
              return file == end.1;
            }
          }
          file := file + 1;
        }
      } else {
        return false;
      }
      return true;
    }

    /** `Board::make_move`: an invalid move leaves the board alone;
        otherwise the end square receives the start square's contents and
        the start square is emptied. */
    method MakeMove(m: CoreMove)
      requires Valid() && OnBoardMove(m) && RookOrEmpty(Cells(), m.start) && NoUnderflow(Cells(), m)
      modifies grid
      ensures Cells() == if MoveVerdict(old(Cells()), m) then Moved(old(Cells()), m) else old(Cells())
    {
      var valid := IsMoveValid(m);
      if !valid {
        return;
      }
      Set(m.end, Square(Get(m.start).content));
      Set(m.start, Square(None));
    }
  }
}
