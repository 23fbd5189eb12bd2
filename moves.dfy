/**
 * Moves and the effect of `Board::make_move` (src/board.rs) on the board's
 * state. `make_move` takes a move with `from`, `to`, the moving `piece` and an
 * optional `capture`; the text interface builds moves with a `MoveType`
 * instead (src/main.rs), and `ToBoardMove` relates the two shapes.
 */
module Moves {
  import opened Wrappers
  import opened Bitsets
  import opened Pieces
  import opened Positions
  import opened Targets

  /** The move `make_move` destructures. */
  datatype Move = Move(from: (nat, nat), to: (nat, nat), piece: Piece, capture: Option<Piece>)

  datatype MoveType = Normal | Capture(captured: Piece) | Castling

  /** The move `parse_move` builds. */
  datatype ParsedMove = ParsedMove(from: (nat, nat), to: (nat, nat), piece: Piece, moveType: MoveType)

  /** The capture of a parsed move: the captured piece exactly for `Capture`. */
  function ToBoardMove(m: ParsedMove): (r: Move)
    ensures r.from == m.from && r.to == m.to && r.piece == m.piece
    ensures forall p :: r.capture == Some(p) <==> m.moveType == Capture(p)
    ensures r.capture.None? <==> !m.moveType.Capture?
  {
    Move(m.from, m.to, m.piece, if m.moveType.Capture? then Some(m.moveType.captured) else None)
  }

  /** The board squares a move names. */
  predicate OnBoardMove(m: Move)
  {
    InRange(Square(m.from.0, m.from.1)) && InRange(Square(m.to.0, m.to.1))
  }

  /** What `make_move` may be asked: both squares index a bit, and the
      generator has a branch for what stands on `from`. */
  predicate Playable(pos: Position, m: Move)
    requires pos.Valid()
  {
    OnBoardMove(m) && GeneratorDefined(pos, m.from)
  }

  /** `make_move`: a move whose target `valid_moves` does not list leaves the
      board as it is. Otherwise `clear` the piece from `from`, `set` it on
      `to`, then `clear` the captured piece from `to`, and hand the move to
      the other side. */
  function ApplyMove(pos: Position, m: Move): (r: Position)
    requires pos.Valid() && Playable(pos, m)
    ensures r.Valid()
    ensures Square(m.to.0, m.to.1) !in ValidTargets(pos, m.from) ==> r == pos
    ensures Square(m.to.0, m.to.1) in ValidTargets(pos, m.from) ==> r.sideToMove == pos.sideToMove.Opposite()
  {
    var from, to := Square(m.from.0, m.from.1), Square(m.to.0, m.to.1);
    if to !in ValidTargets(pos, m.from) then pos
    else
      var moved := Place(Remove(pos, from, m.piece), to, m.piece);
      var captured := if m.capture.Some? then Remove(moved, to, m.capture.value) else moved;
      captured.(sideToMove := captured.sideToMove.Opposite())
  }

  /** The move `parse_move` would build on a consistent board: the piece is the
      one standing on `from`, and the capture is whatever stands on `to`. */
  predicate Described(pos: Position, m: Move)
    requires pos.Valid() && OnBoardMove(m)
  {
    PieceAt(pos, Square(m.from.0, m.from.1)) == Some(m.piece) &&
    m.capture == PieceAt(pos, Square(m.to.0, m.to.1))
  }

  /** On a consistent board, a generated target is never the origin and never
      holds a piece of the mover's colour. */
  lemma TargetIsNotOwn(pos: Position, m: Move)
    requires pos.Valid() && Consistent(pos) && Playable(pos, m) && Described(pos, m)
    requires Square(m.to.0, m.to.1) in ValidTargets(pos, m.from)
    ensures Square(m.from.0, m.from.1) != Square(m.to.0, m.to.1)
    ensures m.piece.Color() == pos.sideToMove
    ensures m.capture.Some? ==> m.capture.value.Color() != pos.sideToMove
  {
    var from, to := Square(m.from.0, m.from.1), Square(m.to.0, m.to.1);
    var side := pos.sideToMove.Index();
    assert MirrorsAt(pos, side, from) && MirrorsAt(pos, side, to);
  }

  /** Handing the move to the other side changes neither `get` nor
      consistency. */
  lemma FlipKeeps(pos: Position)
    requires pos.Valid()
    ensures Consistent(pos.(sideToMove := pos.sideToMove.Opposite())) == Consistent(pos)
    ensures forall t :: InRange(t) ==> PieceAt(pos.(sideToMove := pos.sideToMove.Opposite()), t) == PieceAt(pos, t)
  {
    var r := pos.(sideToMove := pos.sideToMove.Opposite());
    forall t | InRange(t)
      ensures PieceAt(r, t) == PieceAt(pos, t)
    {
      PieceAtFromBits(r, pos, t);
    }
    assert forall slot, t :: 0 <= slot < 3 && InRange(t) ==> MirrorsAt(r, slot, t) == MirrorsAt(pos, slot, t);
  }

  /** `clear` of the piece on `from` then `set` of it on an empty `to` keeps
      the board consistent and moves exactly that piece. */
  lemma RelocateKeepsConsistent(pos: Position, from: int, to: int, piece: Piece)
    requires pos.Valid() && Consistent(pos) && InRange(from) && InRange(to) && from != to
    requires PieceAt(pos, from) == Some(piece) && PieceAt(pos, to).None?
    ensures Consistent(Place(Remove(pos, from, piece), to, piece))
    ensures PieceAt(Place(Remove(pos, from, piece), to, piece), from).None?
    ensures PieceAt(Place(Remove(pos, from, piece), to, piece), to) == Some(piece)
    ensures forall t :: InRange(t) && t != from && t != to ==>
              PieceAt(Place(Remove(pos, from, piece), to, piece), t) == PieceAt(pos, t)
  {
    var lifted := Remove(pos, from, piece);
    RemoveKeepsConsistent(pos, from, piece);
    PlaceRemoveElsewhere(pos, from, piece);
    PlaceKeepsConsistent(lifted, to, piece);
    PlaceThenGet(lifted, to, piece);
  }

  /** A quiet move on a consistent board: the piece leaves `from`, stands on
      `to`, nothing else moves, the board stays consistent and the turn passes. */
  lemma QuietMoveEffects(pos: Position, m: Move)
    requires pos.Valid() && Consistent(pos) && Playable(pos, m) && Described(pos, m)
    requires m.capture.None?
    requires Square(m.to.0, m.to.1) in ValidTargets(pos, m.from)
    ensures Consistent(ApplyMove(pos, m))
    ensures PieceAt(ApplyMove(pos, m), Square(m.from.0, m.from.1)).None?
    ensures PieceAt(ApplyMove(pos, m), Square(m.to.0, m.to.1)) == Some(m.piece)
    ensures forall t :: InRange(t) && t != Square(m.from.0, m.from.1) && t != Square(m.to.0, m.to.1) ==>
              PieceAt(ApplyMove(pos, m), t) == PieceAt(pos, t)
    ensures ApplyMove(pos, m).sideToMove == pos.sideToMove.Opposite()
  {
    var from, to := Square(m.from.0, m.from.1), Square(m.to.0, m.to.1);
    TargetIsNotOwn(pos, m);
    var moved := Place(Remove(pos, from, m.piece), to, m.piece);
    RelocateKeepsConsistent(pos, from, to, m.piece);
    assert ApplyMove(pos, m) == moved.(sideToMove := moved.sideToMove.Opposite());
    FlipKeeps(moved);
  }

  /** A capture as `make_move` plays it: the mover leaves `from` and stands
      on `to`, the captured piece's word loses `to`, nothing else moves and
      the turn passes. */
  lemma CaptureMoveEffects(pos: Position, m: Move)
    requires pos.Valid() && Consistent(pos) && Playable(pos, m) && Described(pos, m)
    requires m.capture.Some?
    requires Square(m.to.0, m.to.1) in ValidTargets(pos, m.from)
    ensures PieceAt(ApplyMove(pos, m), Square(m.from.0, m.from.1)).None?
    ensures !ApplyMove(pos, m).pieces[m.capture.value.Index()].IsBitSet(Square(m.to.0, m.to.1))
    ensures forall t :: InRange(t) && t != Square(m.from.0, m.from.1) && t != Square(m.to.0, m.to.1) ==>
              PieceAt(ApplyMove(pos, m), t) == PieceAt(pos, t)
    ensures ApplyMove(pos, m).sideToMove == pos.sideToMove.Opposite()
  {
    var from, to := Square(m.from.0, m.from.1), Square(m.to.0, m.to.1);
    var c := m.capture.value;
    TargetIsNotOwn(pos, m);
    var lifted := Remove(pos, from, m.piece);
    var moved := Place(lifted, to, m.piece);
    var captured := Remove(moved, to, c);
    assert ApplyMove(pos, m) == captured.(sideToMove := captured.sideToMove.Opposite());
    RemoveKeepsConsistent(pos, from, m.piece);
    PlaceRemoveElsewhere(pos, from, m.piece);
    PlaceRemoveElsewhere(lifted, to, m.piece);
    PlaceRemoveElsewhere(moved, to, c);
    FlipKeeps(captured);
  }

  /** The quirk of `make_move`: the capture is cleared after the mover is set,
      and `clear` also removes `to` from `occupied[0]`. After a capture the
      mover stands on `to` while the all-pieces word says `to` is empty, so
      the board is no longer consistent. */
  lemma CaptureEmptiesOccupied(pos: Position, m: Move)
    requires pos.Valid() && Consistent(pos) && Playable(pos, m) && Described(pos, m)
    requires m.capture.Some?
    requires Square(m.to.0, m.to.1) in ValidTargets(pos, m.from)
    ensures PieceAt(ApplyMove(pos, m), Square(m.to.0, m.to.1)) == Some(m.piece)
    ensures !ApplyMove(pos, m).occupied[0].IsBitSet(Square(m.to.0, m.to.1))
    ensures !Consistent(ApplyMove(pos, m))
  {
    var from, to := Square(m.from.0, m.from.1), Square(m.to.0, m.to.1);
    var c := m.capture.value;
    TargetIsNotOwn(pos, m);
    var r := ApplyMove(pos, m);
    assert c.Index() != m.piece.Index();
    forall k | 0 <= k < 12 && k != c.Index()
      ensures !pos.pieces[k].IsBitSet(to)
    {
      if k < c.Index() {
      } else {
        assert !(pos.pieces[c.Index()].IsBitSet(to) && pos.pieces[k].IsBitSet(to));
      }
    }
    forall k | 0 <= k < 12
      ensures r.pieces[k].IsBitSet(to) == (k == m.piece.Index())
    {
    }
    var got := PieceAt(r, to);
    IndexRoundTrip(got.value, m.piece);
    assert !MirrorsAt(r, 0, to);
  }

  /** `make_move` with the capture cleared before the mover is set. */
  function ApplyMoveCaptureFirst(pos: Position, m: Move): (r: Position)
    requires pos.Valid() && Playable(pos, m)
    ensures r.Valid()
    ensures Square(m.to.0, m.to.1) !in ValidTargets(pos, m.from) ==> r == pos
    ensures Square(m.to.0, m.to.1) in ValidTargets(pos, m.from) ==> r.sideToMove == pos.sideToMove.Opposite()
  {
    var from, to := Square(m.from.0, m.from.1), Square(m.to.0, m.to.1);
    if to !in ValidTargets(pos, m.from) then pos
    else
      var cleared := if m.capture.Some? then Remove(pos, to, m.capture.value) else pos;
      var moved := Place(Remove(cleared, from, m.piece), to, m.piece);
      moved.(sideToMove := moved.sideToMove.Opposite())
  }

  /** With the capture cleared first, every legal move keeps the board
      consistent: the mover stands on `to`, `from` is empty, nothing else
      moves and the turn passes. */
  lemma CaptureFirstKeepsConsistent(pos: Position, m: Move)
    requires pos.Valid() && Consistent(pos) && Playable(pos, m) && Described(pos, m)
    requires Square(m.to.0, m.to.1) in ValidTargets(pos, m.from)
    ensures Consistent(ApplyMoveCaptureFirst(pos, m))
    ensures PieceAt(ApplyMoveCaptureFirst(pos, m), Square(m.from.0, m.from.1)).None?
    ensures PieceAt(ApplyMoveCaptureFirst(pos, m), Square(m.to.0, m.to.1)) == Some(m.piece)
    ensures forall t :: InRange(t) && t != Square(m.from.0, m.from.1) && t != Square(m.to.0, m.to.1) ==>
              PieceAt(ApplyMoveCaptureFirst(pos, m), t) == PieceAt(pos, t)
    ensures ApplyMoveCaptureFirst(pos, m).sideToMove == pos.sideToMove.Opposite()
  {
    var from, to := Square(m.from.0, m.from.1), Square(m.to.0, m.to.1);
    TargetIsNotOwn(pos, m);
    var cleared := if m.capture.Some? then Remove(pos, to, m.capture.value) else pos;
    if m.capture.Some? {
      RemoveKeepsConsistent(pos, to, m.capture.value);
      PlaceRemoveElsewhere(pos, to, m.capture.value);
    }
    assert Consistent(cleared) && PieceAt(cleared, to).None?;
    assert PieceAt(cleared, from) == Some(m.piece);
    var moved := Place(Remove(cleared, from, m.piece), to, m.piece);
    RelocateKeepsConsistent(cleared, from, to, m.piece);
    assert ApplyMoveCaptureFirst(pos, m) == moved.(sideToMove := moved.sideToMove.Opposite());
    FlipKeeps(moved);
  }
}
