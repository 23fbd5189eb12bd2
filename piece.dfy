/**
 * The twelve piece identities of the bitboard engine (src/piece.rs), with
 * their table index and their one-letter code.
 */
module Pieces {
  import opened Wrappers

  /** The letters `from_char` accepts, in index order. */
  const PieceCodes: string := "PNBRQKpnbrqk"

  datatype Color = White | Black {

    /** Slot of this colour in `Board::occupied` (slot 0 is both colours). */
    function Index(): (i: nat)
      ensures i == 1 || i == 2
    {
      match this
      case White => 1
      case Black => 2
    }

    /** `Color::opposite`. */
    function Opposite(): (c: Color)
      ensures c != this
    {
      match this
      case White => Black
      case Black => White
    }
  }

  /** `Color::from_index`: the inverse of `Color::index` on slots 1 and 2. */
  function ColorFromIndex(i: nat): (r: Option<Color>)
    ensures r.Some? <==> i == 1 || i == 2
    ensures r.Some? ==> r.value.Index() == i
  {
    match i
    case 1 => Some(White)
    case 2 => Some(Black)
    case _ => None
  }

  datatype Piece =
    | WhitePawn | WhiteKnight | WhiteBishop | WhiteRook | WhiteQueen | WhiteKing
    | BlackPawn | BlackKnight | BlackBishop | BlackRook | BlackQueen | BlackKing
  {
    /** `Piece::index`: white pieces take 0..5 and black pieces 6..11. */
    function Index(): (i: nat)
      ensures i < 12
    {
      match this
      case WhitePawn => 0
      case WhiteKnight => 1
      case WhiteBishop => 2
      case WhiteRook => 3
      case WhiteQueen => 4
      case WhiteKing => 5
      case BlackPawn => 6
      case BlackKnight => 7
      case BlackBishop => 8
      case BlackRook => 9
      case BlackQueen => 10
      case BlackKing => 11
    }

    /** `Piece::color`: white exactly for the first six indices. */
    function Color(): (c: Color)
      ensures c == White <==> Index() < 6
    {
      if Index() < 6 then White else Black
    }

    /** `Piece::simple_char`: upper case for white, lower case for black. */
    function SimpleChar(): (c: char)
      ensures c == PieceCodes[Index()]
      ensures 'A' <= c <= 'Z' <==> Color() == White
      ensures 'a' <= c <= 'z' <==> Color() == Black
    {
      match this
      case WhitePawn => 'P'
      case WhiteKnight => 'N'
      case WhiteBishop => 'B'
      case WhiteRook => 'R'
      case WhiteQueen => 'Q'
      case WhiteKing => 'K'
      case BlackPawn => 'p'
      case BlackKnight => 'n'
      case BlackBishop => 'b'
      case BlackRook => 'r'
      case BlackQueen => 'q'
      case BlackKing => 'k'
    }

    /** The pieces `sliding_moves` serves; `valid_moves` has no generator
        (`todo!()`) for pawns, knights and kings. */
    predicate IsSlider()
    {
      match this
      case WhiteBishop | BlackBishop | WhiteRook | BlackRook | WhiteQueen | BlackQueen => true
      case _ => false
    }
  }

  /** `Piece::from_index`: defined exactly on 0..11, inverse of `index`. */
  function FromIndex(i: nat): (r: Option<Piece>)
    ensures r.Some? <==> i < 12
    ensures r.Some? ==> r.value.Index() == i
  {
    match i
    case 0 => Some(WhitePawn)
    case 1 => Some(WhiteKnight)
    case 2 => Some(WhiteBishop)
    case 3 => Some(WhiteRook)
    case 4 => Some(WhiteQueen)
    case 5 => Some(WhiteKing)
    case 6 => Some(BlackPawn)
    case 7 => Some(BlackKnight)
    case 8 => Some(BlackBishop)
    case 9 => Some(BlackRook)
    case 10 => Some(BlackQueen)
    case 11 => Some(BlackKing)
    case _ => None
  }

  /** `Piece::from_char`: defined exactly on the twelve codes, inverse of
      `simple_char`. */
  function FromChar(c: char): (r: Option<Piece>)
    ensures r.Some? <==> c in PieceCodes
    ensures r.Some? ==> r.value.SimpleChar() == c
  {
    match c
    case 'P' => Some(WhitePawn)
    case 'N' => Some(WhiteKnight)
    case 'B' => Some(WhiteBishop)
    case 'R' => Some(WhiteRook)
    case 'Q' => Some(WhiteQueen)
    case 'K' => Some(WhiteKing)
    case 'p' => Some(BlackPawn)
    case 'n' => Some(BlackKnight)
    case 'b' => Some(BlackBishop)
    case 'r' => Some(BlackRook)
    case 'q' => Some(BlackQueen)
    case 'k' => Some(BlackKing)
    case _ => None
  }

  /** `index` is injective, and `from_index` undoes it. */
  lemma IndexRoundTrip(p: Piece, q: Piece)
    ensures FromIndex(p.Index()) == Some(p)
    ensures p.Index() == q.Index() ==> p == q
  {
  }

  /** `from_char` undoes `simple_char`. */
  lemma CharRoundTrip(p: Piece)
    ensures FromChar(p.SimpleChar()) == Some(p)
  {
  }

  /** `Color::from_index` undoes `Color::index`, and `opposite` swaps the two
      colour slots. */
  lemma ColorRoundTrip(c: Color)
    ensures ColorFromIndex(c.Index()) == Some(c)
    ensures c.Opposite().Opposite() == c
    ensures c.Opposite().Index() == 3 - c.Index()
  {
  }
}
