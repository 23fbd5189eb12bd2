/**
 * The bitboard `Board` of src/board.rs: twelve piece words and three
 * occupancy words held in fixed-size arrays, and the side to move. Every
 * method is specified by the value functions of `Positions`, `Fen` and
 * `Moves` applied to `Model()`, the board's state as a value.
 */
module Boards {
  import opened Wrappers
  import opened Bitsets
  import opened Pieces
  import opened Positions
  import opened Strings
  import opened Fen
  import opened Targets
  import opened Moves
  import MoveGen

  class Board {
    const pieces: array<Bitset>
    const occupied: array<Bitset>
    var sideToMove: Color

    /** `[Bitset; 12]` and `[Bitset; 3]`, stored apart. */
    ghost predicate Valid()
      reads this
    {
      pieces.Length == 12 && occupied.Length == 3 && pieces != occupied
    }

    /** The board's state as a value. */
    function Model(): (p: Position)
      reads this, pieces, occupied
      requires Valid()
      ensures p.Valid()
    {
      Position(pieces[..], occupied[..], sideToMove)
    }

    /** `Board::new`: every word empty, White to move. */
    constructor()
      ensures Valid() && fresh(pieces) && fresh(occupied)
      ensures Model() == EmptyPosition()
    {
      pieces := new Bitset[12](_ => Bitsets.New(0));
      occupied := new Bitset[3](_ => Bitsets.New(0));
      sideToMove := White;
      new;
      assert pieces[..] == seq(12, _ => Bitsets.Empty());
      assert occupied[..] == seq(3, _ => Bitsets.Empty());
    }

    /** `Board::get`: the piece of the first piece word holding the square. */
    method Get(rank: nat, file: nat) returns (r: Option<Piece>)
      requires Valid() && InRange(Square(rank, file))
      ensures r == PieceAt(Model(), Square(rank, file))
    {
      var square := rank * 8 + file;
      ghost var model := Model();
      for index := 0 to 12
        invariant PieceAt(model, square) == FirstHolder(model, square, index)
      {
        if pieces[index].IsBitSet(square) {
          r := FromIndex(index);
          return;
        }
      }
      r := None;
    }

    /** `Board::set`: the square joins the piece's word, `occupied[0]` and the
        piece's colour slot. */
    method Set(rank: nat, file: nat, piece: Piece)
      requires Valid() && InRange(Square(rank, file))
      modifies pieces, occupied
      ensures Valid() && Model() == Place(old(Model()), Square(rank, file), piece)
    {
      var square := rank * 8 + file;
      pieces[piece.Index()] := pieces[piece.Index()].SetBit(square);
      occupied[0] := occupied[0].SetBit(square);
      var slot := match piece.Color() case White => 1 case Black => 2;
      occupied[slot] := occupied[slot].SetBit(square);
    }

    /** `Board::clear`: the square leaves the piece's word, `occupied[0]` and
        the piece's colour slot. */
    method Clear(rank: nat, file: nat, piece: Piece)
      requires Valid() && InRange(Square(rank, file))
      modifies pieces, occupied
      ensures Valid() && Model() == Remove(old(Model()), Square(rank, file), piece)
    {
      var square := rank * 8 + file;
      pieces[piece.Index()] := pieces[piece.Index()].ClearBit(square);
      occupied[0] := occupied[0].ClearBit(square);
      var slot := match piece.Color() case White => 1 case Black => 2;
      occupied[slot] := occupied[slot].ClearBit(square);
    }

    /** The body of `from_fen`'s character loop before its `file += 1`,
        for the character `c` at place `j` of the row: a piece letter is `set`
        on (rank, file), a digit 1..8 moves the file counter on, and anything
        else ends the row with `None`. The scan of the rest of the row from
        the new state is the scan from the old one. */
    method ReadChar(rank: nat, file: nat, c: char, ghost start: Position, ghost placed: seq<Placement>,
                    ghost ts: seq<Token>, ghost j: nat)
        returns (next: Option<nat>, ghost placed': seq<Placement>)
      requires Valid() && start.Valid() && Placeable(placed) && Model() == PlaceAll(start, placed)
      requires j < |ts| && ts[j] == Classify(c) && !ScanRow(placed, rank, file, ts[j..], false).Overflow?
      modifies pieces, occupied
      ensures Valid() && Placeable(placed') && Model() == PlaceAll(start, placed')
      ensures next.None? ==> ScanRow(placed, rank, file, ts[j..], false) == Rejected
      ensures next.Some? ==> ScanRow(placed', rank, next.value + 1, ts[j + 1..], false) ==
                             ScanRow(placed, rank, file, ts[j..], false)
    {
      placed' := placed;
      if IsAsciiAlphabetic(c) {
        match FromChar(c) {
          case Some(piece) =>
            assert ts[j] == Letter(piece);
            ScanLetterAt(placed, rank, file, ts, j, false);
            Set(rank, file, piece);
            ghost var x: Placement := (Square(rank, file), piece);
            PlaceAllSnoc(start, placed, x);
            placed' := placed + [x];
            next := Some(file);
            assert ScanRow(placed', rank, file + 1, ts[j + 1..], false) == ScanRow(placed, rank, file, ts[j..], false);
          case None =>
            ScanInvalidAt(placed, rank, file, ts, j, false);
            next := None;
        }
      } else if '1' <= c <= '8' {
        ScanSkipAt(placed, rank, file, ts, j, false);
        assert ts[j] == Skip(c as int - '0' as int);
        next := Some(file + (c as int - '0' as int) - 1);
        assert ScanRow(placed, rank, file + ts[j].files, ts[j + 1..], false) == ScanRow(placed, rank, file, ts[j..], false);
      } else {
        ScanInvalidAt(placed, rank, file, ts, j, false);
        next := None;
      }
    }

    /** The body of `from_fen`'s row loop up to its bound check: the
        characters of one row, each piece letter `set` on the board, and the
        final file counter; `None` where `from_fen` returns `None` inside the
        row. */
    method ReadRow(rank: nat, row: string) returns (r: Option<nat>)
      requires Valid() && !ScanRow([], rank, 0, Tokens(row), false).Overflow?
      modifies pieces, occupied
      ensures Valid()
      ensures r.Some? <==> ScanRow([], rank, 0, Tokens(row), false).Parsed?
      ensures r.Some? ==> r.value == ScanRow([], rank, 0, Tokens(row), false).value.1 &&
                          Model() == PlaceAll(old(Model()), ScanRow([], rank, 0, Tokens(row), false).value.0)
    {
      ghost var ts := Tokens(row);
      ghost var start := Model();
      ghost var spec := ScanRow([], rank, 0, ts, false);
      ghost var placed: seq<Placement> := [];
      assert ts[0..] == ts;
      var file: nat := 0;
      for j := 0 to |row|
        invariant Valid() && Placeable(placed) && Model() == PlaceAll(start, placed)
        invariant ScanRow(placed, rank, file, ts[j..], false) == spec
      {
        var next;
        next, placed := ReadChar(rank, file, row[j], start, placed, ts, j);
        if next.None? {
          return None;
        }
        file := next.value + 1;
      }
      assert ts[|row|..] == [];
      return Some(file);
    }

    /** `Board::from_fen`, for a record on which the source does not panic:
        a board exactly when `ParseFen` parses the record, holding the
        position `ParseFen` describes, which satisfies the board invariant. */
    static method FromFen(fen: string) returns (r: Option<Board>)
      requires !ParseFen(fen, false).Overflow?
      ensures r.Some? <==> ParseFen(fen, false).Parsed?
      ensures r.Some? ==> r.value.Valid() && fresh(r.value) && r.value.Model() == ParseFen(fen, false).value
      ensures r.Some? ==> Consistent(r.value.Model())
    {
      var board := new Board();
      var config := Split(fen, ' ');
      if |config| != 6 {
        return None;
      }
      var rows := Split(config[0], '/');
      ghost var spec := ParseFen(fen, false);
      ghost var trs := TokenRows(rows);
      assert trs[0..] == trs;
      for rank := 0 to |rows|
        invariant board.Valid() && fresh(board) && fresh(board.pieces) && fresh(board.occupied)
        invariant rank <= 8
        invariant ParseRows(board.Model(), rank, trs[rank..], false) == spec
      {
        assert trs[rank..][0] == trs[rank] == Tokens(rows[rank]) && trs[rank..][1..] == trs[rank + 1..];
        var file := board.ReadRow(rank, rows[rank]);
        if file.None? || file.value > 8 || rank >= 8 {
          return None;
        }
      }
      assert trs[|rows|..] == [];
      FenConsistent(fen, false);
      return Some(board);
    }

    /** `Board::make_move`: a move whose target `valid_moves` does not list
        leaves the board alone; otherwise the piece is cleared from `from`,
        set on `to`, the captured piece is cleared from `to`, and the other
        side is to move. */
    method MakeMove(m: Move)
      requires Valid() && Playable(Model(), m)
      modifies this, pieces, occupied
      ensures Valid() && Model() == ApplyMove(old(Model()), m)
    {
      var moves := MoveGen.ValidMoves(Model(), m.from);
      if !moves.IsBitSet(m.to.0 * 8 + m.to.1) {
        return;
      }
      Clear(m.from.0, m.from.1, m.piece);
      Set(m.to.0, m.to.1, m.piece);
      if m.capture.Some? {
        Clear(m.to.0, m.to.1, m.capture.value);
      }
      sideToMove := sideToMove.Opposite();
    }
  }
}
