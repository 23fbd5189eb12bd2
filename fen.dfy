/**
 * What `Board::from_fen` (src/board.rs) computes from a Forsyth–Edwards
 * Notation record (section 16.1 of the PGN Standard): the record must have six
 * space-separated fields, and only the first, the piece placement, is read.
 * Rows are separated by '/', the first row is rank 0 (the 8th rank); a piece
 * letter is placed with `Board::set`, a digit 1..8 skips that many files.
 *
 * The scan of one row lists the `set` calls it makes, in order, as
 * placements; the board is those placements applied to the board so far.
 * The source calls `set` before it checks any bound, so a letter beyond the
 * last square reaches `1 << square` with `square >= 64` and the program
 * panics; a long run of digits overflows the u8 file counter the same way.
 * Those runs end in `Overflow` here. With `checked` set, the same parser
 * rejects at those points instead.
 */
module Fen {
  import opened Wrappers
  import opened Bitsets
  import opened Pieces
  import opened Positions
  import opened Strings

  datatype FenOutcome<T> = Parsed(value: T) | Rejected | Overflow

  /** A `set` call: the square and the piece put there. */
  type Placement = (nat, Piece)

  /** `char::is_ascii_alphabetic`. */
  predicate IsAsciiAlphabetic(c: char)
  {
    'A' <= c <= 'Z' || 'a' <= c <= 'z'
  }

  /** `('1'..='8').contains(&c)`. */
  predicate IsFileSkip(c: char)
  {
    '1' <= c <= '8'
  }

  /** The largest value of the u8 file counter. */
  const MaxU8: nat := 255

  /** Every placement names a board square. */
  predicate Placeable(ps: seq<Placement>)
  {
    forall i :: 0 <= i < |ps| ==> ps[i].0 < 64
  }

  /** What the body of the character loop makes of one character: a piece
      letter, a digit 1..8 skipping that many files, or a character that ends
      the parse with `None` (a letter that is no piece code, anything else). */
  datatype Token = Letter(piece: Piece) | Skip(files: nat) | Invalid

  function Classify(c: char): (t: Token)
    ensures t.Letter? <==> c in PieceCodes
    ensures t.Letter? ==> t.piece.SimpleChar() == c
    ensures t.Skip? <==> IsFileSkip(c)
    ensures t.Skip? ==> 1 <= t.files <= 8 && t.files == c as int - '0' as int
  {
    if IsAsciiAlphabetic(c) then
      match FromChar(c)
      case Some(piece) => Letter(piece)
      case None => Invalid
    else if IsFileSkip(c) then Skip(c as int - '0' as int)
    else Invalid
  }

  /** The characters of a row, classified. */
  function Tokens(row: string): (ts: seq<Token>)
    ensures |ts| == |row|
  {
    seq(|row|, i requires 0 <= i < |row| => Classify(row[i]))
  }

  /** The inner loop of `from_fen` over the rest `ts` of a row, continuing at
      `file` after the `set` calls `placed`. The result is every `set` call of
      the row and the final file counter. */
  function ScanRow(placed: seq<Placement>, rank: nat, file: nat, ts: seq<Token>, checked: bool)
      : (r: FenOutcome<(seq<Placement>, nat)>)
    requires Placeable(placed)
    ensures r.Parsed? ==> Placeable(r.value.0)
    ensures checked ==> !r.Overflow?
    decreases |ts|
  {
    if ts == [] then Parsed((placed, file))
    else
      match ts[0]
      case Invalid => Rejected
      case Letter(piece) =>
        if Square(rank, file) >= 64 then (if checked then Rejected else Overflow)
        else ScanRow(placed + [(Square(rank, file), piece)], rank, file + 1, ts[1..], checked)
      case Skip(files) =>
        if file + files > MaxU8 then (if checked then Rejected else Overflow)
        else ScanRow(placed, rank, file + files, ts[1..], checked)
  }

  /** The `set` calls in order. */
  function PlaceAll(pos: Position, ps: seq<Placement>): (r: Position)
    requires pos.Valid() && Placeable(ps)
    ensures r.Valid() && r.sideToMove == pos.sideToMove
    decreases |ps|
  {
    if ps == [] then pos else PlaceAll(Place(pos, ps[0].0, ps[0].1), ps[1..])
  }

  /** The scan at a letter of the row. */
  lemma ScanLetterAt(placed: seq<Placement>, rank: nat, file: nat, ts: seq<Token>, j: nat, checked: bool)
    requires Placeable(placed) && j < |ts| && ts[j].Letter?
    ensures Square(rank, file) >= 64 ==>
              ScanRow(placed, rank, file, ts[j..], checked) == (if checked then Rejected else Overflow)
    ensures Square(rank, file) < 64 ==>
              ScanRow(placed, rank, file, ts[j..], checked) ==
              ScanRow(placed + [(Square(rank, file), ts[j].piece)], rank, file + 1, ts[j + 1..], checked)
  {
    assert ts[j..][0] == ts[j] && ts[j..][1..] == ts[j + 1..];
  }

  /** The scan at a digit of the row. */
  lemma ScanSkipAt(placed: seq<Placement>, rank: nat, file: nat, ts: seq<Token>, j: nat, checked: bool)
    requires Placeable(placed) && j < |ts| && ts[j].Skip?
    ensures file + ts[j].files > MaxU8 ==>
              ScanRow(placed, rank, file, ts[j..], checked) == (if checked then Rejected else Overflow)
    ensures file + ts[j].files <= MaxU8 ==>
              ScanRow(placed, rank, file, ts[j..], checked) ==
              ScanRow(placed, rank, file + ts[j].files, ts[j + 1..], checked)
  {
    assert ts[j..][0] == ts[j] && ts[j..][1..] == ts[j + 1..];
  }

  /** The scan at an invalid character of the row. */
  lemma ScanInvalidAt(placed: seq<Placement>, rank: nat, file: nat, ts: seq<Token>, j: nat, checked: bool)
    requires Placeable(placed) && j < |ts| && ts[j].Invalid?
    ensures ScanRow(placed, rank, file, ts[j..], checked) == Rejected
  {
    assert ts[j..][0] == ts[j];
  }

  /** One more `set` call after the others. */
  lemma {:induction false} PlaceAllSnoc(pos: Position, ps: seq<Placement>, x: Placement)
    requires pos.Valid() && Placeable(ps) && x.0 < 64
    ensures Placeable(ps + [x])
    ensures PlaceAll(pos, ps + [x]) == Place(PlaceAll(pos, ps), x.0, x.1)
    decreases |ps|
  {
    if ps != [] {
      assert (ps + [x])[0] == ps[0] && (ps + [x])[1..] == ps[1..] + [x];
      PlaceAllSnoc(Place(pos, ps[0].0, ps[0].1), ps[1..], x);
    } else {
      assert ([] + [x])[1..] == [];
    }
  }

  /** The rows of a placement, each classified. */
  function TokenRows(rows: seq<string>): (trs: seq<seq<Token>>)
    ensures |trs| == |rows|
  {
    seq(|rows|, i requires 0 <= i < |rows| => Tokens(rows[i]))
  }

  /** The outer loop of `from_fen` over the (classified) rows, from row `rank`
      on: each row is scanned, then checked to cover at most 8 files on one of
      the 8 ranks, and its `set` calls are applied. */
  function ParseRows(pos: Position, rank: nat, rows: seq<seq<Token>>, checked: bool): (r: FenOutcome<Position>)
    requires pos.Valid() && rank <= 8
    ensures r.Parsed? ==> r.value.Valid() && r.value.sideToMove == pos.sideToMove
    decreases |rows|
  {
    if rows == [] then Parsed(pos)
    else
      match ScanRow([], rank, 0, rows[0], checked)
      case Rejected => Rejected
      case Overflow => Overflow
      case Parsed((ps, file)) =>
        if file > 8 || rank >= 8 then Rejected
        else ParseRows(PlaceAll(pos, ps), rank + 1, rows[1..], checked)
  }

  /** `Board::from_fen`. */
  function ParseFen(fen: string, checked: bool): (r: FenOutcome<Position>)
    ensures |Split(fen, ' ')| != 6 ==> r == Rejected
    ensures r.Parsed? ==> r.value.Valid() && r.value.sideToMove == White
  {
    var fields := Split(fen, ' ');
    if |fields| != 6 then Rejected
    else ParseRows(EmptyPosition(), 0, TokenRows(Split(fields[0], '/')), checked)
  }

  /** The rows parse only if the first row scans, fits in 8 files on one of
      the 8 ranks, and the rows after it parse on the board it leaves. */
  lemma ParseRowsStep(pos: Position, rank: nat, rows: seq<seq<Token>>, checked: bool)
    requires pos.Valid() && rank <= 8 && rows != []
    requires ParseRows(pos, rank, rows, checked).Parsed?
    ensures ScanRow([], rank, 0, rows[0], checked).Parsed?
    ensures ScanRow([], rank, 0, rows[0], checked).value.1 <= 8 && rank < 8
    ensures ParseRows(pos, rank, rows, checked) ==
              ParseRows(PlaceAll(pos, ScanRow([], rank, 0, rows[0], checked).value.0), rank + 1, rows[1..], checked)
  {
  }

  /** When the rows are parsed: the first row scans, fits and lies on the
      board, and the rest are parsed from the next rank. */
  lemma ParseRowsParsed(pos: Position, rank: nat, rows: seq<seq<Token>>, checked: bool)
    requires pos.Valid() && rank <= 8 && rows != []
    ensures ParseRows(pos, rank, rows, checked).Parsed? <==>
              ScanRow([], rank, 0, rows[0], checked).Parsed? &&
              ScanRow([], rank, 0, rows[0], checked).value.1 <= 8 && rank < 8 &&
              ParseRows(PlaceAll(pos, ScanRow([], rank, 0, rows[0], checked).value.0), rank + 1, rows[1..], checked).Parsed?
  {
  }

  // ---------------------------------------------------------------------
  // What a row describes

  /** The squares a token describes: one for a letter, `files` empty ones
      for a digit. */
  function Cells(t: Token): seq<Option<Piece>>
  {
    match t
    case Letter(piece) => [Some(piece)]
    case Skip(files) => seq(files, _ => None)
    case Invalid => []
  }

  /** The squares a row describes. */
  function Expand(ts: seq<Token>): seq<Option<Piece>>
    decreases |ts|
  {
    if ts == [] then [] else Cells(ts[0]) + Expand(ts[1..])
  }

  /** The placements that put the occupied cells of `cells` on consecutive
      squares from `start` on. */
  function Placements(start: nat, cells: seq<Option<Piece>>): seq<Placement>
    decreases |cells|
  {
    if cells == [] then []
    else (if cells[0].Some? then [(start, cells[0].value)] else []) + Placements(start + 1, cells[1..])
  }

  /** Placements of two runs of cells one after the other. */
  lemma {:induction false} PlacementsAppend(start: nat, a: seq<Option<Piece>>, b: seq<Option<Piece>>)
    ensures Placements(start, a + b) == Placements(start, a) + Placements(start + |a|, b)
    decreases |a|
  {
    if a != [] {
      assert (a + b)[0] == a[0] && (a + b)[1..] == a[1..] + b;
      PlacementsAppend(start + 1, a[1..], b);
      var head := if a[0].Some? then [(start, a[0].value)] else [];
      assert Placements(start, a + b) == head + Placements(start + 1, a[1..] + b);
      assert Placements(start, a) == head + Placements(start + 1, a[1..]);
      assert head + (Placements(start + 1, a[1..]) + Placements(start + |a|, b)) ==
        (head + Placements(start + 1, a[1..])) + Placements(start + |a|, b);
    } else {
      assert a + b == b;
    }
  }

  /** The placements of a run of cells lie on the run's squares. */
  lemma {:induction false} PlacementsOnBoard(start: nat, cells: seq<Option<Piece>>)
    requires start + |cells| <= 64
    ensures Placeable(Placements(start, cells))
    decreases |cells|
  {
    if cells != [] {
      PlacementsOnBoard(start + 1, cells[1..]);
    }
  }

  /** Empty cells place nothing. */
  lemma {:induction false} PlacementsEmpty(start: nat, cells: seq<Option<Piece>>)
    requires forall i :: 0 <= i < |cells| ==> cells[i].None?
    ensures Placements(start, cells) == []
    decreases |cells|
  {
    if cells != [] {
      PlacementsEmpty(start + 1, cells[1..]);
    }
  }

  /** A row scans only if it holds no invalid character; it then advances
      the file counter by the number of squares it describes and makes one
      `set` call per letter, on consecutive squares. */
  lemma {:induction false} RowShape(placed: seq<Placement>, rank: nat, file: nat, ts: seq<Token>, checked: bool)
    requires Placeable(placed)
    requires ScanRow(placed, rank, file, ts, checked).Parsed?
    ensures NoInvalid(ts)
    ensures ScanRow(placed, rank, file, ts, checked).value.1 == file + |Expand(ts)|
    ensures ScanRow(placed, rank, file, ts, checked).value.0 == placed + Placements(Square(rank, file), Expand(ts))
    decreases |ts|, 1
  {
    if ts != [] {
      if ts[0].Letter? {
        LetterShape(placed, rank, file, ts, checked);
      } else {
        SkipShape(placed, rank, file, ts, checked);
      }
    }
  }

  /** `RowShape` for a row starting with a letter. */
  lemma {:induction false} LetterShape(placed: seq<Placement>, rank: nat, file: nat, ts: seq<Token>, checked: bool)
    requires Placeable(placed) && ts != [] && ts[0].Letter?
    requires ScanRow(placed, rank, file, ts, checked).Parsed?
    ensures NoInvalid(ts)
    ensures ScanRow(placed, rank, file, ts, checked).value.1 == file + |Expand(ts)|
    ensures ScanRow(placed, rank, file, ts, checked).value.0 == placed + Placements(Square(rank, file), Expand(ts))
    decreases |ts|, 0
  {
    var start, piece := Square(rank, file), ts[0].piece;
    var rest := Expand(ts[1..]);
    var next := placed + [(start, piece)];
    assert Expand(ts) == [Some(piece)] + rest;
    assert ScanRow(placed, rank, file, ts, checked) == ScanRow(next, rank, file + 1, ts[1..], checked);
    RowShape(next, rank, file + 1, ts[1..], checked);
    assert ([Some(piece)] + rest)[1..] == rest;
    assert Placements(start, [Some(piece)] + rest) == [(start, piece)] + Placements(start + 1, rest);
    assert next + Placements(start + 1, rest) == placed + ([(start, piece)] + Placements(start + 1, rest));
  }

  /** `RowShape` for a row starting with a digit. */
  lemma {:induction false} SkipShape(placed: seq<Placement>, rank: nat, file: nat, ts: seq<Token>, checked: bool)
    requires Placeable(placed) && ts != [] && !ts[0].Letter?
    requires ScanRow(placed, rank, file, ts, checked).Parsed?
    ensures NoInvalid(ts)
    ensures ScanRow(placed, rank, file, ts, checked).value.1 == file + |Expand(ts)|
    ensures ScanRow(placed, rank, file, ts, checked).value.0 == placed + Placements(Square(rank, file), Expand(ts))
    decreases |ts|, 0
  {
    var start, files := Square(rank, file), ts[0].files;
    var cells, rest := Cells(ts[0]), Expand(ts[1..]);
    assert Expand(ts) == cells + rest;
    assert ScanRow(placed, rank, file, ts, checked) == ScanRow(placed, rank, file + files, ts[1..], checked);
    RowShape(placed, rank, file + files, ts[1..], checked);
    PlacementsAppend(start, cells, rest);
    PlacementsEmpty(start, cells);
    assert Placements(start, cells + rest) == Placements(start + files, rest);
  }

  /** The squares a row describes. */
  function ExpandRow(row: string): seq<Option<Piece>>
  {
    Expand(Tokens(row))
  }

  /** Every character is a piece letter or a digit 1..8. */
  predicate RowChars(row: string)
  {
    forall i :: 0 <= i < |row| ==> row[i] in PieceCodes || IsFileSkip(row[i])
  }

  /** A row's characters are all valid exactly when none classifies as invalid. */
  lemma TokensValid(row: string)
    ensures RowChars(row) <==> NoInvalid(Tokens(row))
  {
    var ts := Tokens(row);
    if !RowChars(row) {
      var i :| 0 <= i < |row| && !(row[i] in PieceCodes || IsFileSkip(row[i]));
      assert ts[i] == Classify(row[i]);
    } else {
      forall i | 0 <= i < |ts|
        ensures !ts[i].Invalid?
      {
        assert ts[i] == Classify(row[i]);
      }
    }
  }

  /** A placement `from_fen` accepts: at most 8 rows, each of piece letters
      and digits 1..8 and covering at most 8 files. */
  predicate WellFormedPlacement(rows: seq<string>)
  {
    |rows| <= 8 && forall i :: 0 <= i < |rows| ==> RowChars(rows[i]) && |ExpandRow(rows[i])| <= 8
  }

  /** No token of the row is invalid. */
  predicate NoInvalid(ts: seq<Token>)
  {
    forall j :: 0 <= j < |ts| ==> !ts[j].Invalid?
  }

  /** The same on classified rows placed from rank `rank` on. */
  predicate WellFormed(rows: seq<seq<Token>>, rank: nat)
  {
    rank + |rows| <= 8 && forall i :: 0 <= i < |rows| ==> NoInvalid(rows[i]) && |Expand(rows[i])| <= 8
  }

  /** Well-formedness row by row. */
  lemma WellFormedStep(rows: seq<seq<Token>>, rank: nat)
    requires rows != []
    ensures WellFormed(rows, rank) <==>
              rank < 8 && NoInvalid(rows[0]) && |Expand(rows[0])| <= 8 && WellFormed(rows[1..], rank + 1)
  {
    assert forall i :: 0 <= i < |rows[1..]| ==> rows[1..][i] == rows[i + 1];
  }

  /** Classifying the rows keeps well-formedness. */
  lemma WellFormedTokens(rows: seq<string>)
    ensures WellFormed(TokenRows(rows), 0) <==> WellFormedPlacement(rows)
  {
    var trs := TokenRows(rows);
    forall i | 0 <= i < |rows|
      ensures trs[i] == Tokens(rows[i])
      ensures RowChars(rows[i]) <==> NoInvalid(trs[i])
    {
      TokensValid(rows[i]);
    }
  }

  /** A row without invalid characters that fits the board scans on any
      rank of the board. */
  lemma {:induction false} RowFits(placed: seq<Placement>, rank: nat, file: nat, ts: seq<Token>, checked: bool)
    requires Placeable(placed) && rank < 8 && NoInvalid(ts)
    requires file + |Expand(ts)| <= 8
    ensures ScanRow(placed, rank, file, ts, checked).Parsed?
    decreases |ts|
  {
    if ts != [] {
      assert Expand(ts) == Cells(ts[0]) + Expand(ts[1..]);
      match ts[0]
      case Letter(piece) =>
        RowFits(placed + [(Square(rank, file), piece)], rank, file + 1, ts[1..], checked);
      case Skip(files) =>
        RowFits(placed, rank, file + files, ts[1..], checked);
    }
  }

  /** `from_fen` accepts the rows from `rank` on exactly when they are well
      formed. */
  lemma {:induction false} RowsAccepted(pos: Position, rank: nat, rows: seq<seq<Token>>, checked: bool)
    requires pos.Valid() && rank <= 8
    ensures ParseRows(pos, rank, rows, checked).Parsed? <==> WellFormed(rows, rank)
    decreases |rows|
  {
    if rows != [] {
      var ts := rows[0];
      var row := ScanRow([], rank, 0, ts, checked);
      WellFormedStep(rows, rank);
      ParseRowsParsed(pos, rank, rows, checked);
      if row.Parsed? {
        RowShape([], rank, 0, ts, checked);
        if row.value.1 <= 8 && rank < 8 {
          RowsAccepted(PlaceAll(pos, row.value.0), rank + 1, rows[1..], checked);
        }
      }
      if WellFormed(rows, rank) {
        RowFits([], rank, 0, ts, checked);
      }
    }
  }

  /** `from_fen` returns a board exactly when the record has six fields and
      its placement is well formed; in particular it rejects a letter that is
      no piece code, a character that is neither a letter nor 1..8, a row
      covering more than 8 files and a ninth row. */
  lemma FenAccepted(fen: string, checked: bool)
    ensures ParseFen(fen, checked).Parsed? <==>
              |Split(fen, ' ')| == 6 && WellFormedPlacement(Split(Split(fen, ' ')[0], '/'))
  {
    if |Split(fen, ' ')| == 6 {
      var rows := Split(Split(fen, ' ')[0], '/');
      RowsAccepted(EmptyPosition(), 0, TokenRows(rows), checked);
      WellFormedTokens(rows);
    }
  }

  /** Overflow turned into rejection. */
  function Demote<T>(r: FenOutcome<T>): (d: FenOutcome<T>)
    ensures !d.Overflow?
    ensures d.Parsed? <==> r.Parsed?
    ensures r.Parsed? ==> d == r
  {
    if r.Overflow? then Rejected else r
  }

  /** On one row the checked scan returns what the source returns, with
      rejection in place of the panic. */
  lemma {:induction false} CheckedRow(placed: seq<Placement>, rank: nat, file: nat, ts: seq<Token>)
    requires Placeable(placed)
    ensures ScanRow(placed, rank, file, ts, true) == Demote(ScanRow(placed, rank, file, ts, false))
    decreases |ts|
  {
    if ts != [] {
      match ts[0]
      case Letter(piece) =>
        if Square(rank, file) < 64 {
          CheckedRow(placed + [(Square(rank, file), piece)], rank, file + 1, ts[1..]);
        }
      case Skip(files) =>
        if file + files <= MaxU8 {
          CheckedRow(placed, rank, file + files, ts[1..]);
        }
      case Invalid =>
    }
  }

  /** The same over the rows from `rank` on. */
  lemma {:induction false} CheckedRows(pos: Position, rank: nat, rows: seq<seq<Token>>)
    requires pos.Valid() && rank <= 8
    ensures ParseRows(pos, rank, rows, true) == Demote(ParseRows(pos, rank, rows, false))
    decreases |rows|
  {
    if rows != [] {
      var ts := rows[0];
      CheckedRow([], rank, 0, ts);
      var row := ScanRow([], rank, 0, ts, false);
      if row.Parsed? && row.value.1 <= 8 && rank < 8 {
        CheckedRows(PlaceAll(pos, row.value.0), rank + 1, rows[1..]);
      }
    }
  }

  /** The parser with its bounds checked before `set` never overflows and
      agrees with `from_fen` wherever `from_fen` does not panic. */
  lemma CheckedFen(fen: string)
    ensures ParseFen(fen, true) == Demote(ParseFen(fen, false))
    ensures !ParseFen(fen, true).Overflow?
  {
    var fields := Split(fen, ' ');
    if |fields| == 6 {
      CheckedRows(EmptyPosition(), 0, TokenRows(Split(fields[0], '/')));
    }
  }

  /** Two placements `from_fen` is meant to reject that reach `set` on a
      square past the board first: a ninth row holding a piece letter, and a
      last row with a letter after its eighth file. The checked parser
      rejects both. */
  lemma OverflowBeforeReject(pos: Position, rows: seq<seq<Token>>)
    requires pos.Valid()
    ensures ParseRows(pos, 8, [Tokens("p")] + rows, false) == Overflow
    ensures ParseRows(pos, 8, [Tokens("p")] + rows, true) == Rejected
    ensures ParseRows(pos, 7, [Tokens("8p")] + rows, false) == Overflow
    ensures ParseRows(pos, 7, [Tokens("8p")] + rows, true) == Rejected
  {
    assert Tokens("p") == [Letter(BlackPawn)];
    assert Tokens("8p") == [Skip(8), Letter(BlackPawn)];
  }

  /** Applying the placements of a run of cells from `start` on, on a board
      empty from `start`: squares before it are untouched, the run's squares
      get its cells, and squares after it stay empty. */
  lemma {:induction false} PlaceCells(pos: Position, start: nat, cells: seq<Option<Piece>>)
    requires pos.Valid() && start + |cells| <= 64
    requires forall t :: start <= t < 64 ==> PieceAt(pos, t).None?
    ensures Placeable(Placements(start, cells))
    ensures forall t :: 0 <= t < start ==> PieceAt(PlaceAll(pos, Placements(start, cells)), t) == PieceAt(pos, t)
    ensures forall t :: start <= t < start + |cells| ==> PieceAt(PlaceAll(pos, Placements(start, cells)), t) == cells[t - start]
    ensures forall t :: start + |cells| <= t < 64 ==> PieceAt(PlaceAll(pos, Placements(start, cells)), t).None?
    decreases |cells|, 1
  {
    PlacementsOnBoard(start, cells);
    if cells != [] {
      if cells[0].Some? {
        PlaceCellsPiece(pos, start, cells);
      } else {
        PlaceCellsEmpty(pos, start, cells);
      }
    }
  }

  /** The `set` calls of a run of cells, on a consistent board empty from
      `start`, keep it consistent: each lands on a square still empty. */
  lemma {:induction false} PlaceCellsConsistent(pos: Position, start: nat, cells: seq<Option<Piece>>)
    requires pos.Valid() && Consistent(pos) && start + |cells| <= 64
    requires forall t :: start <= t < 64 ==> PieceAt(pos, t).None?
    ensures Placeable(Placements(start, cells))
    ensures Consistent(PlaceAll(pos, Placements(start, cells)))
    decreases |cells|
  {
    PlacementsOnBoard(start, cells);
    if cells != [] {
      var rest := Placements(start + 1, cells[1..]);
      PlacementsOnBoard(start + 1, cells[1..]);
      if cells[0].Some? {
        var piece := cells[0].value;
        var placed := Place(pos, start, piece);
        PlaceKeepsConsistent(pos, start, piece);
        PlaceRemoveElsewhere(pos, start, piece);
        PlaceCellsConsistent(placed, start + 1, cells[1..]);
        var ps := [(start, piece)] + rest;
        assert Placements(start, cells) == ps;
        assert ps[0] == (start, piece) && ps[1..] == rest;
        assert PlaceAll(pos, ps) == PlaceAll(placed, rest);
      } else {
        assert Placements(start, cells) == rest;
        PlaceCellsConsistent(pos, start + 1, cells[1..]);
      }
    }
  }

  /** `PlaceCells` for a run starting with a piece. */
  lemma {:induction false} PlaceCellsPiece(pos: Position, start: nat, cells: seq<Option<Piece>>)
    requires pos.Valid() && start + |cells| <= 64 && cells != [] && cells[0].Some?
    requires forall t :: start <= t < 64 ==> PieceAt(pos, t).None?
    ensures Placeable(Placements(start, cells))
    ensures forall t :: 0 <= t < start ==> PieceAt(PlaceAll(pos, Placements(start, cells)), t) == PieceAt(pos, t)
    ensures forall t :: start <= t < start + |cells| ==> PieceAt(PlaceAll(pos, Placements(start, cells)), t) == cells[t - start]
    ensures forall t :: start + |cells| <= t < 64 ==> PieceAt(PlaceAll(pos, Placements(start, cells)), t).None?
    decreases |cells|, 0
  {
    PlacementsOnBoard(start, cells);
    var piece := cells[0].value;
    var rest := Placements(start + 1, cells[1..]);
    var placed := Place(pos, start, piece);
    PlaceThenGet(pos, start, piece);
    PlaceCells(placed, start + 1, cells[1..]);
    var ps := [(start, piece)] + rest;
    assert Placements(start, cells) == ps;
    assert ps[0] == (start, piece) && ps[1..] == rest;
    var q := PlaceAll(placed, rest);
    assert PlaceAll(pos, ps) == q;
    forall t | start <= t < start + |cells|
      ensures PieceAt(q, t) == cells[t - start]
    {
      if t > start {
        assert cells[1..][t - (start + 1)] == cells[t - start];
      }
    }
  }

  /** `PlaceCells` for a run starting with an empty square. */
  lemma {:induction false} PlaceCellsEmpty(pos: Position, start: nat, cells: seq<Option<Piece>>)
    requires pos.Valid() && start + |cells| <= 64 && cells != [] && cells[0].None?
    requires forall t :: start <= t < 64 ==> PieceAt(pos, t).None?
    ensures Placeable(Placements(start, cells))
    ensures forall t :: 0 <= t < start ==> PieceAt(PlaceAll(pos, Placements(start, cells)), t) == PieceAt(pos, t)
    ensures forall t :: start <= t < start + |cells| ==> PieceAt(PlaceAll(pos, Placements(start, cells)), t) == cells[t - start]
    ensures forall t :: start + |cells| <= t < 64 ==> PieceAt(PlaceAll(pos, Placements(start, cells)), t).None?
    decreases |cells|, 0
  {
    PlacementsOnBoard(start, cells);
    var rest := Placements(start + 1, cells[1..]);
    PlaceCells(pos, start + 1, cells[1..]);
    assert Placements(start, cells) == rest;
    var q := PlaceAll(pos, rest);
    forall t | start <= t < start + |cells|
      ensures PieceAt(q, t) == cells[t - start]
    {
      if t > start {
        assert cells[1..][t - (start + 1)] == cells[t - start];
      }
    }
  }

  /** The piece a well-formed placement puts on (rank, file). */
  function Expected(rows: seq<seq<Token>>, rank: nat, file: nat): Option<Piece>
  {
    if rank < |rows| && file < |Expand(rows[rank])| then Expand(rows[rank])[file] else None
  }

  /** The rows after the first describe the ranks after the first. */
  lemma ExpectedTail(rows: seq<seq<Token>>, rank: nat, file: nat)
    requires rows != [] && rank > 0
    ensures Expected(rows, rank, file) == Expected(rows[1..], rank - 1, file)
  {
    if rank < |rows| {
      assert rows[1..][rank - 1] == rows[rank];
    }
  }

  /** The `set` calls of one row that fits, on a board empty from that row. */
  lemma RowPlaces(pos: Position, rank: nat, ts: seq<Token>, checked: bool)
    requires pos.Valid() && rank < 8
    requires forall t :: Square(rank, 0) <= t < 64 ==> PieceAt(pos, t).None?
    requires ScanRow([], rank, 0, ts, checked).Parsed? && ScanRow([], rank, 0, ts, checked).value.1 <= 8
    ensures forall t :: 0 <= t < Square(rank, 0) ==>
              PieceAt(PlaceAll(pos, ScanRow([], rank, 0, ts, checked).value.0), t) == PieceAt(pos, t)
    ensures forall fl :: 0 <= fl < 8 ==>
              PieceAt(PlaceAll(pos, ScanRow([], rank, 0, ts, checked).value.0), Square(rank, fl)) ==
              (if fl < |Expand(ts)| then Expand(ts)[fl] else None)
    ensures forall t :: Square(rank + 1, 0) <= t < 64 ==>
              PieceAt(PlaceAll(pos, ScanRow([], rank, 0, ts, checked).value.0), t).None?
  {
    RowShape([], rank, 0, ts, checked);
    var cells := Expand(ts);
    assert ScanRow([], rank, 0, ts, checked).value.0 == Placements(Square(rank, 0), cells);
    PlaceCells(pos, Square(rank, 0), cells);
  }

  /** `final` agrees with `pos` on the squares below `n`. */
  ghost predicate KeptBelow(final: Position, pos: Position, n: int)
    requires final.Valid() && pos.Valid()
  {
    forall t :: 0 <= t < 64 && t < n ==> PieceAt(final, t) == PieceAt(pos, t)
  }

  /** Every square of the ranks from `rank` on holds what `rows` describes
      there, the first row describing rank `rank`. */
  ghost predicate Describes(final: Position, rows: seq<seq<Token>>, rank: nat)
    requires final.Valid()
  {
    forall rk, fl :: rank <= rk < 8 && 0 <= fl < 8 ==> PieceAt(final, Square(rk, fl)) == Expected(rows, rk - rank, fl)
  }

  /** Putting one decoded rank in front of the ranks decoded after it. */
  lemma RowsCombine(pos: Position, p: Position, final: Position, rank: nat, rows: seq<seq<Token>>)
    requires pos.Valid() && p.Valid() && final.Valid() && rows != [] && rank < 8
    requires forall t :: 0 <= t < Square(rank, 0) ==> PieceAt(p, t) == PieceAt(pos, t)
    requires forall fl :: 0 <= fl < 8 ==> PieceAt(p, Square(rank, fl)) == Expected(rows, 0, fl)
    requires KeptBelow(final, p, Square(rank + 1, 0))
    requires Describes(final, rows[1..], rank + 1)
    ensures KeptBelow(final, pos, Square(rank, 0))
    ensures Describes(final, rows, rank)
  {
    forall rk, fl | rank <= rk < 8 && 0 <= fl < 8
      ensures PieceAt(final, Square(rk, fl)) == Expected(rows, rk - rank, fl)
    {
      if rk > rank {
        ExpectedTail(rows, rk - rank, fl);
      } else {
        assert PieceAt(final, Square(rk, fl)) == PieceAt(p, Square(rank, fl));
      }
    }
  }

  /** The first row's `set` calls followed by the other rows' decoding. */
  lemma RowsFirst(pos: Position, rank: nat, rows: seq<seq<Token>>, checked: bool, final: Position)
    requires pos.Valid() && final.Valid() && rank < 8 && rows != []
    requires forall t :: Square(rank, 0) <= t < 64 ==> PieceAt(pos, t).None?
    requires ScanRow([], rank, 0, rows[0], checked).Parsed? && ScanRow([], rank, 0, rows[0], checked).value.1 <= 8
    requires KeptBelow(final, PlaceAll(pos, ScanRow([], rank, 0, rows[0], checked).value.0), Square(rank + 1, 0))
    requires Describes(final, rows[1..], rank + 1)
    ensures KeptBelow(final, pos, Square(rank, 0))
    ensures Describes(final, rows, rank)
  {
    RowPlaces(pos, rank, rows[0], checked);
    RowsCombine(pos, PlaceAll(pos, ScanRow([], rank, 0, rows[0], checked).value.0), final, rank, rows);
  }

  /** Decoding the rows from `rank` on, on a board empty from that rank, to
      `final`: the ranks before `rank` are kept and each later square holds
      what its row describes. */
  lemma {:induction false} RowsPlace(pos: Position, rank: nat, rows: seq<seq<Token>>, checked: bool, final: Position)
    requires pos.Valid() && rank <= 8
    requires forall t :: Square(rank, 0) <= t < 64 ==> PieceAt(pos, t).None?
    requires ParseRows(pos, rank, rows, checked) == Parsed(final)
    ensures final.Valid()
    ensures KeptBelow(final, pos, Square(rank, 0))
    ensures Describes(final, rows, rank)
    decreases |rows|
  {
    if rows == [] {
      forall rk, fl | rank <= rk < 8 && 0 <= fl < 8
        ensures PieceAt(pos, Square(rk, fl)).None?
      {
      }
    } else {
      ParseRowsStep(pos, rank, rows, checked);
      var p := PlaceAll(pos, ScanRow([], rank, 0, rows[0], checked).value.0);
      assert forall t :: Square(rank + 1, 0) <= t < 64 ==> PieceAt(p, t).None? by {
        RowPlaces(pos, rank, rows[0], checked);
      }
      RowsPlace(p, rank + 1, rows[1..], checked, final);
      RowsFirst(pos, rank, rows, checked, final);
    }
  }

  /** The `set` calls of one row that fits keep a consistent board, empty
      from that row, consistent. */
  lemma RowConsistent(pos: Position, rank: nat, ts: seq<Token>, checked: bool)
    requires pos.Valid() && Consistent(pos) && rank < 8
    requires forall t :: Square(rank, 0) <= t < 64 ==> PieceAt(pos, t).None?
    requires ScanRow([], rank, 0, ts, checked).Parsed? && ScanRow([], rank, 0, ts, checked).value.1 <= 8
    ensures Consistent(PlaceAll(pos, ScanRow([], rank, 0, ts, checked).value.0))
  {
    RowShape([], rank, 0, ts, checked);
    var cells := Expand(ts);
    assert ScanRow([], rank, 0, ts, checked).value.0 == Placements(Square(rank, 0), cells);
    PlaceCellsConsistent(pos, Square(rank, 0), cells);
  }

  /** Decoding the rows from `rank` on, on a consistent board empty from
      that rank, gives a consistent board. */
  lemma {:induction false} RowsConsistent(pos: Position, rank: nat, rows: seq<seq<Token>>, checked: bool, final: Position)
    requires pos.Valid() && Consistent(pos) && rank <= 8
    requires forall t :: Square(rank, 0) <= t < 64 ==> PieceAt(pos, t).None?
    requires ParseRows(pos, rank, rows, checked) == Parsed(final)
    ensures final.Valid() && Consistent(final)
    decreases |rows|
  {
    if rows != [] {
      ParseRowsStep(pos, rank, rows, checked);
      var p := PlaceAll(pos, ScanRow([], rank, 0, rows[0], checked).value.0);
      RowConsistent(pos, rank, rows[0], checked);
      assert forall t :: Square(rank + 1, 0) <= t < 64 ==> PieceAt(p, t).None? by {
        RowPlaces(pos, rank, rows[0], checked);
      }
      RowsConsistent(p, rank + 1, rows[1..], checked, final);
    }
  }

  /** A board `from_fen` returns satisfies the board invariant: the piece
      words are disjoint and each occupancy word is the union of its piece
      words. */
  lemma FenConsistent(fen: string, checked: bool)
    requires ParseFen(fen, checked).Parsed?
    ensures ParseFen(fen, checked).value.Valid() && Consistent(ParseFen(fen, checked).value)
  {
    EmptyConsistent();
    RowsConsistent(EmptyPosition(), 0, TokenRows(Split(Split(fen, ' ')[0], '/')), checked, ParseFen(fen, checked).value);
  }

  /** `from_fen` puts on every square what the placement describes there, and
      White is to move. */
  lemma FenPlaces(fen: string, checked: bool)
    requires ParseFen(fen, checked).Parsed?
    ensures ParseFen(fen, checked).value.Valid() && ParseFen(fen, checked).value.sideToMove == White
    ensures forall rk, fl :: 0 <= rk < 8 && 0 <= fl < 8 ==>
              PieceAt(ParseFen(fen, checked).value, Square(rk, fl)) ==
              Expected(TokenRows(Split(Split(fen, ' ')[0], '/')), rk, fl)
  {
    EmptyConsistent();
    RowsPlace(EmptyPosition(), 0, TokenRows(Split(Split(fen, ' ')[0], '/')), checked, ParseFen(fen, checked).value);
  }
}
