/**
 * The move generator of src/movegen.rs. `sliding_moves` walks each direction
 * square by square and sets the bits of the squares it reaches; the result is
 * proved equal to the specification `Targets.Sliding`. The generator only
 * reads the board (`&Board`), so it takes the board's state as a Position.
 */
module MoveGen {
  import opened Bitsets
  import opened Pieces
  import opened Positions
  import opened Targets

  /** `sliding_moves`: for each direction, step from `from` while the next
      square is on the board; stop before a square of the side to move, set
      the square's bit, and stop after a square of the other side. */
  method SlidingMoves(board: Position, from: (nat, nat), directions: seq<(int, int)>)
      returns (moves: Bitset)
    requires board.Valid() && InRange(Square(from.0, from.1)) && AllDirections(directions)
    ensures moves.Squares() == Sliding(board, from.0, from.1, directions)
  {
    moves := Bitsets.New(0);
    assert moves == Bitsets.Empty();
    for i := 0 to |directions|
      invariant moves.Squares() == Sliding(board, from.0, from.1, directions[..i])
    {
      moves := WalkRay(board, from, directions[i], moves);
      assert directions[..i + 1][..i] == directions[..i];
    }
    assert directions[..|directions|] == directions;
  }

  /** The inner loop of `sliding_moves` for one direction `d`: the squares
      of the ray from `from` join `moves`. */
  method WalkRay(board: Position, from: (nat, nat), d: (int, int), moves: Bitset) returns (result: Bitset)
    requires board.Valid() && InRange(Square(from.0, from.1)) && IsDirection(d)
    ensures result.Squares() == moves.Squares() + Ray(board, from.0, from.1, d)
  {
    result := moves;
    var (rank, file) := from;
    var (dr, df) := d;
    var r, f := rank, file;
    while 0 <= f + df < 8 && 0 <= r + dr < 8
      invariant result.Squares() + Ray(board, r, f, d) == moves.Squares() + Ray(board, rank, file, d)
      decreases RayMeasure(r, f, d)
    {
      RayStep(board, r, f, d);
      r := r + dr;
      f := f + df;
      var target := r * 8 + f;
      assert target == Square(r, f);
      if board.occupied[board.sideToMove.Index()].IsBitSet(target) {
        break;
      }
      SetBitSquares(result, target);
      result := result.SetBit(target);
      if board.occupied[board.sideToMove.Opposite().Index()].IsBitSet(target) {
        break;
      }
    }
  }

  /** `rook_moves`: the four orthogonal directions. */
  method RookMoves(board: Position, from: (nat, nat)) returns (moves: Bitset)
    requires board.Valid() && InRange(Square(from.0, from.1))
    ensures moves.Squares() == RookTargets(board, from.0, from.1)
  {
    moves := SlidingMoves(board, from, [(1, 0), (-1, 0), (0, 1), (0, -1)]);
  }

  /** `bishop_moves`: the four diagonal directions. */
  method BishopMoves(board: Position, from: (nat, nat)) returns (moves: Bitset)
    requires board.Valid() && InRange(Square(from.0, from.1))
    ensures moves.Squares() == BishopTargets(board, from.0, from.1)
  {
    moves := SlidingMoves(board, from, [(1, 1), (1, -1), (-1, 1), (-1, -1)]);
  }

  /** `queen_moves`: the bitwise OR of the rook and bishop moves. */
  method QueenMoves(board: Position, from: (nat, nat)) returns (moves: Bitset)
    requires board.Valid() && InRange(Square(from.0, from.1))
    ensures moves.Squares() == RookTargets(board, from.0, from.1) + BishopTargets(board, from.0, from.1)
  {
    var rook := RookMoves(board, from);
    var bishop := BishopMoves(board, from);
    moves := rook.Union(bishop);
  }

  /** `valid_moves`: the empty set from an empty square or out of turn,
      otherwise the moves of the bishop, rook or queen on `from`. */
  method ValidMoves(board: Position, from: (nat, nat)) returns (moves: Bitset)
    requires board.Valid() && InRange(Square(from.0, from.1)) && GeneratorDefined(board, from)
    ensures moves.Squares() == ValidTargets(board, from)
    ensures forall t :: InRange(t) && moves.IsBitSet(t) ==> !OwnAt(board, t)
  {
    var piece := PieceAt(board, from.0 * 8 + from.1);
    if piece.Some? {
      var p := piece.value;
      if p.Color() != board.sideToMove {
        return Bitsets.Empty();
      }
      match p {
        case WhiteBishop | BlackBishop =>
          moves := BishopMoves(board, from);
        case WhiteRook | BlackRook =>
          moves := RookMoves(board, from);
        case WhiteQueen | BlackQueen =>
          moves := QueenMoves(board, from);
      }
      return;
    }
    moves := Bitsets.Empty();
  }
}
