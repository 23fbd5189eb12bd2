/**
 * The piece types of the older array engine (src/core/piece.rs): a piece
 * is a type and a colour, written as one letter (upper case for White,
 * lower case for Black), and a square of the 8x8 array holds a piece or
 * nothing.
 */
module CorePieces {
  import opened Wrappers

  datatype PieceType = Pawn | Knight | Bishop | Rook | Queen | King

  datatype Color = White | Black

  /** The twelve letters `from_char` accepts. */
  const PieceLetters: string := "PNBRQKpnbrqk"

  datatype Piece = Piece(pieceType: PieceType, color: Color)
  {
    /** `simple_char`: the piece's one-letter string, upper case for White. */
    function SimpleChar(): (s: string)
      ensures |s| == 1 && s[0] in PieceLetters
      ensures 'A' <= s[0] <= 'Z' <==> color == White
    {
      match (pieceType, color)
      case (Pawn, White) => "P"
      case (Pawn, Black) => "p"
      case (Knight, White) => "N"
      case (Knight, Black) => "n"
      case (Bishop, White) => "B"
      case (Bishop, Black) => "b"
      case (Rook, White) => "R"
      case (Rook, Black) => "r"
      case (Queen, White) => "Q"
      case (Queen, Black) => "q"
      case (King, White) => "K"
      case (King, Black) => "k"
    }
  }

  /** `from_char`: the piece a letter names, `None` for any other character.
      An accepted letter is the one `simple_char` writes for its piece. */
  function FromChar(c: char): (r: Option<Piece>)
    ensures r.Some? <==> c in PieceLetters
    ensures r.Some? ==> (r.value.color == White <==> 'A' <= c <= 'Z')
    ensures r.Some? ==> r.value.SimpleChar() == [c]
  {
    match c
    case 'P' => Some(Piece(Pawn, White))
    case 'p' => Some(Piece(Pawn, Black))
    case 'N' => Some(Piece(Knight, White))
    case 'n' => Some(Piece(Knight, Black))
    case 'B' => Some(Piece(Bishop, White))
    case 'b' => Some(Piece(Bishop, Black))
    case 'R' => Some(Piece(Rook, White))
    case 'r' => Some(Piece(Rook, Black))
    case 'Q' => Some(Piece(Queen, White))
    case 'q' => Some(Piece(Queen, Black))
    case 'K' => Some(Piece(King, White))
    case 'k' => Some(Piece(King, Black))
    case _ => None
  }

  /** Reading back the letter of a piece gives the same piece. */
  lemma SimpleCharRoundTrip(p: Piece)
    ensures FromChar(p.SimpleChar()[0]) == Some(p)
  {
  }

  /** No two pieces share a letter. */
  lemma SimpleCharInjective(p: Piece, q: Piece)
    ensures p.SimpleChar() == q.SimpleChar() ==> p == q
  {
    if p.SimpleChar() == q.SimpleChar() {
      SimpleCharRoundTrip(p);
      SimpleCharRoundTrip(q);
    }
  }

  /** `Square`: what one cell of the board holds. */
  datatype Square = Square(content: Option<Piece>)
}
