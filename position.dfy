/**
 * The state of the bitboard engine's `Board` (src/board.rs) as a value: twelve
 * per-piece square sets, three occupancy words (slot 0 both colours, slot 1
 * white, slot 2 black) and the side to move. The `Board` class stores the same
 * state in arrays; its methods are specified by the functions here.
 */
module Positions {
  import opened Wrappers
  import opened Bitsets
  import opened Pieces

  /** Square index of (rank, file); rank 0 is the 8th rank, file 0 is file a. */
  function Square(rank: int, file: int): int
  {
    rank * 8 + file
  }

  datatype Position = Position(pieces: seq<Bitset>, occupied: seq<Bitset>, sideToMove: Color)
  {
    /** `pieces: [Bitset; 12]` and `occupied: [Bitset; 3]`. */
    predicate Valid()
    {
      |pieces| == 12 && |occupied| == 3
    }
  }

  /** `Board::new`: every set empty, White to move. */
  function EmptyPosition(): (p: Position)
    ensures p.Valid() && p.sideToMove == White
    ensures forall k :: 0 <= k < 12 ==> p.pieces[k].Squares() == {}
    ensures forall k :: 0 <= k < 3 ==> p.occupied[k].Squares() == {}
  {
    Position(seq(12, _ => Bitsets.Empty()), seq(3, _ => Bitsets.Empty()), White)
  }

  /** `Board::set`: adds `square` to the piece's set, to `occupied[0]` and to
      the piece's colour slot; nothing else changes. */
  function Place(pos: Position, square: int, piece: Piece): (r: Position)
    requires pos.Valid() && InRange(square)
    ensures r.Valid() && r.sideToMove == pos.sideToMove
    ensures r.pieces[piece.Index()].IsBitSet(square)
    ensures r.occupied[0].IsBitSet(square)
    ensures r.occupied[piece.Color().Index()].IsBitSet(square)
    ensures forall k :: 0 <= k < 12 && k != piece.Index() ==> r.pieces[k] == pos.pieces[k]
    ensures r.occupied[piece.Color().Opposite().Index()] == pos.occupied[piece.Color().Opposite().Index()]
    ensures forall t :: InRange(t) && t != square ==>
              r.pieces[piece.Index()].IsBitSet(t) == pos.pieces[piece.Index()].IsBitSet(t) &&
              r.occupied[0].IsBitSet(t) == pos.occupied[0].IsBitSet(t) &&
              r.occupied[piece.Color().Index()].IsBitSet(t) == pos.occupied[piece.Color().Index()].IsBitSet(t)
  {
    var k := piece.Index();
    var slot := match piece.Color() case White => 1 case Black => 2;
    var occupied := pos.occupied[0 := pos.occupied[0].SetBit(square)];
    Position(pos.pieces[k := pos.pieces[k].SetBit(square)],
             occupied[slot := occupied[slot].SetBit(square)],
             pos.sideToMove)
  }

  /** `Board::clear`: removes `square` from the piece's set, from `occupied[0]`
      and from the piece's colour slot; nothing else changes. */
  function Remove(pos: Position, square: int, piece: Piece): (r: Position)
    requires pos.Valid() && InRange(square)
    ensures r.Valid() && r.sideToMove == pos.sideToMove
    ensures !r.pieces[piece.Index()].IsBitSet(square)
    ensures !r.occupied[0].IsBitSet(square)
    ensures !r.occupied[piece.Color().Index()].IsBitSet(square)
    ensures forall k :: 0 <= k < 12 && k != piece.Index() ==> r.pieces[k] == pos.pieces[k]
    ensures r.occupied[piece.Color().Opposite().Index()] == pos.occupied[piece.Color().Opposite().Index()]
    ensures forall t :: InRange(t) && t != square ==>
              r.pieces[piece.Index()].IsBitSet(t) == pos.pieces[piece.Index()].IsBitSet(t) &&
              r.occupied[0].IsBitSet(t) == pos.occupied[0].IsBitSet(t) &&
              r.occupied[piece.Color().Index()].IsBitSet(t) == pos.occupied[piece.Color().Index()].IsBitSet(t)
  {
    var k := piece.Index();
    var slot := match piece.Color() case White => 1 case Black => 2;
    var occupied := pos.occupied[0 := pos.occupied[0].ClearBit(square)];
    Position(pos.pieces[k := pos.pieces[k].ClearBit(square)],
             occupied[slot := occupied[slot].ClearBit(square)],
             pos.sideToMove)
  }

  /** The first of the piece sets `k..11` that holds `square`. */
  function FirstHolder(pos: Position, square: int, k: nat): (r: Option<Piece>)
    requires pos.Valid() && InRange(square) && k <= 12
    ensures r.Some? ==> k <= r.value.Index() && pos.pieces[r.value.Index()].IsBitSet(square)
    ensures r.Some? ==> forall j :: k <= j < r.value.Index() ==> !pos.pieces[j].IsBitSet(square)
    ensures r.None? <==> forall j :: k <= j < 12 ==> !pos.pieces[j].IsBitSet(square)
    decreases 12 - k
  {
    if k == 12 then None
    else if pos.pieces[k].IsBitSet(square) then FromIndex(k)
    else FirstHolder(pos, square, k + 1)
  }

  /** `Board::get`: the piece of the lowest-index set holding `square`, or
      None when no piece set holds it. */
  function PieceAt(pos: Position, square: int): (r: Option<Piece>)
    requires pos.Valid() && InRange(square)
    ensures r.Some? ==> pos.pieces[r.value.Index()].IsBitSet(square)
    ensures r.Some? ==> forall j :: 0 <= j < r.value.Index() ==> !pos.pieces[j].IsBitSet(square)
    ensures r.None? <==> forall j :: 0 <= j < 12 ==> !pos.pieces[j].IsBitSet(square)
  {
    FirstHolder(pos, square, 0)
  }

  /** `get` depends only on which piece sets hold the square. */
  lemma PieceAtFromBits(a: Position, b: Position, square: int)
    requires a.Valid() && b.Valid() && InRange(square)
    requires forall k :: 0 <= k < 12 ==> a.pieces[k].IsBitSet(square) == b.pieces[k].IsBitSet(square)
    ensures PieceAt(a, square) == PieceAt(b, square)
  {
    var ra, rb := PieceAt(a, square), PieceAt(b, square);
    if ra.Some? && rb.Some? {
      IndexRoundTrip(ra.value, rb.value);
    }
  }

  /** `set` and `clear` leave `get` of every other square unchanged. */
  lemma PlaceRemoveElsewhere(pos: Position, square: int, piece: Piece)
    requires pos.Valid() && InRange(square)
    ensures forall t :: InRange(t) && t != square ==>
              PieceAt(Place(pos, square, piece), t) == PieceAt(pos, t) &&
              PieceAt(Remove(pos, square, piece), t) == PieceAt(pos, t)
  {
    forall t | InRange(t) && t != square
      ensures PieceAt(Place(pos, square, piece), t) == PieceAt(pos, t)
      ensures PieceAt(Remove(pos, square, piece), t) == PieceAt(pos, t)
    {
      PieceAtFromBits(Place(pos, square, piece), pos, t);
      PieceAtFromBits(Remove(pos, square, piece), pos, t);
    }
  }

  /** After `set` on a square no piece set holds, `get` returns that piece,
      and `get` of every other square is unchanged. */
  lemma PlaceThenGet(pos: Position, square: int, piece: Piece)
    requires pos.Valid() && InRange(square)
    requires PieceAt(pos, square).None?
    ensures PieceAt(Place(pos, square, piece), square) == Some(piece)
    ensures forall t :: InRange(t) && t != square ==> PieceAt(Place(pos, square, piece), t) == PieceAt(pos, t)
  {
    var r := Place(pos, square, piece);
    var got := PieceAt(r, square);
    assert got.Some?;
    IndexRoundTrip(got.value, piece);
    forall t | InRange(t) && t != square
      ensures PieceAt(r, t) == PieceAt(pos, t)
    {
      PieceAtFromBits(r, pos, t);
    }
  }

  /** After `clear` of the only piece on a square, `get` finds nothing there,
      and `get` of every other square is unchanged. */
  lemma RemoveThenGet(pos: Position, square: int, piece: Piece)
    requires pos.Valid() && InRange(square)
    requires pos.pieces[piece.Index()].IsBitSet(square)
    requires forall k :: 0 <= k < 12 && k != piece.Index() ==> !pos.pieces[k].IsBitSet(square)
    ensures PieceAt(pos, square) == Some(piece)
    ensures PieceAt(Remove(pos, square, piece), square).None?
    ensures forall t :: InRange(t) && t != square ==> PieceAt(Remove(pos, square, piece), t) == PieceAt(pos, t)
  {
    var r := Remove(pos, square, piece);
    var got := PieceAt(pos, square);
    IndexRoundTrip(got.value, piece);
    forall t | InRange(t) && t != square
      ensures PieceAt(r, t) == PieceAt(pos, t)
    {
      PieceAtFromBits(r, pos, t);
    }
  }

  /** No square is held by two piece sets. */
  ghost predicate Disjoint(pos: Position)
    requires pos.Valid()
  {
    forall t, j, k :: InRange(t) && 0 <= j < k < 12 ==>
      !(pos.pieces[j].IsBitSet(t) && pos.pieces[k].IsBitSet(t))
  }

  /** The occupancy word of `slot` agrees with the piece sets on `square`:
      slot 0 with all twelve, slot 1 with the white ones, slot 2 with the
      black ones. */
  ghost predicate MirrorsAt(pos: Position, slot: nat, square: int)
    requires pos.Valid() && slot < 3 && InRange(square)
  {
    var holder := PieceAt(pos, square);
    pos.occupied[slot].IsBitSet(square) ==
      (holder.Some? && (slot == 0 || holder.value.Color().Index() == slot))
  }

  /** The board invariant: piece sets are disjoint and every occupancy word
      is the union of the piece sets it stands for. */
  ghost predicate Consistent(pos: Position)
    requires pos.Valid()
  {
    Disjoint(pos) &&
    forall slot, t :: 0 <= slot < 3 && InRange(t) ==> MirrorsAt(pos, slot, t)
  }

  /** `Board::new` is consistent and holds no piece. */
  lemma EmptyConsistent()
    ensures Consistent(EmptyPosition())
    ensures forall t :: InRange(t) ==> PieceAt(EmptyPosition(), t).None?
  {
  }

  /** `set` on an empty square keeps the board consistent. */
  lemma PlaceKeepsConsistent(pos: Position, square: int, piece: Piece)
    requires pos.Valid() && InRange(square) && Consistent(pos)
    requires PieceAt(pos, square).None?
    ensures Consistent(Place(pos, square, piece))
  {
    var r := Place(pos, square, piece);
    PlaceThenGet(pos, square, piece);
    forall slot, t | 0 <= slot < 3 && InRange(t)
      ensures MirrorsAt(r, slot, t)
    {
      assert MirrorsAt(pos, slot, t);
      if slot != 0 && slot != piece.Color().Index() {
        ColorRoundTrip(piece.Color());
      }
    }
  }

  /** `clear` of the piece standing on a square keeps the board consistent
      and empties the square. */
  lemma RemoveKeepsConsistent(pos: Position, square: int, piece: Piece)
    requires pos.Valid() && InRange(square) && Consistent(pos)
    requires PieceAt(pos, square) == Some(piece)
    ensures Consistent(Remove(pos, square, piece))
    ensures PieceAt(Remove(pos, square, piece), square).None?
  {
    var r := Remove(pos, square, piece);
    forall k | 0 <= k < 12 && k != piece.Index()
      ensures !pos.pieces[k].IsBitSet(square)
    {
      if k < piece.Index() {
      } else {
        assert !(pos.pieces[piece.Index()].IsBitSet(square) && pos.pieces[k].IsBitSet(square));
      }
    }
    RemoveThenGet(pos, square, piece);
    forall slot, t | 0 <= slot < 3 && InRange(t)
      ensures MirrorsAt(r, slot, t)
    {
      assert MirrorsAt(pos, slot, t);
      if slot != 0 && slot != piece.Color().Index() {
        ColorRoundTrip(piece.Color());
      }
    }
  }
}
