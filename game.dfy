/**
 * The helpers of the text interface in src/main.rs: algebraic coordinates
 * ("e4") to and from (rank, file) pairs, where rank 0 is the eighth rank;
 * the squares of a bitset as coordinates; the classification of a move
 * typed by the player; and the list of every move of the side to move.
 * Each helper only reads the board, so it takes the board's state as a
 * `Position` value.
 */
module Game {
  import opened Wrappers
  import opened Bitsets
  import opened Pieces
  import opened Positions
  import opened Targets
  import opened Moves
  import MoveGen

  // ---------------------------------------------------------------------
  // Coordinates

  /** `to_digit(10)` accepts exactly the ASCII digits. */
  predicate IsDigit(c: char)
  {
    '0' <= c <= '9'
  }

  /** `pos_to_index`, for a string on which it does not panic: two one-byte
      characters, the second a digit. A file letter a..h and a rank digit
      1..8 give `(8 - rank, file - 'a')`; anything else gives `None`. */
  function PosToIndex(pos: string): (r: Option<(nat, nat)>)
    requires |pos| == 2 && pos[0] < 128 as char && IsDigit(pos[1])
    ensures r.Some? <==> 'a' <= pos[0] <= 'h' && '1' <= pos[1] <= '8'
    ensures r.Some? ==> r.value.0 < 8 && r.value.1 < 8
    ensures r.Some? ==> r.value == (8 - (pos[1] as int - '0' as int), pos[0] as int - 'a' as int)
  {
    var file := pos[0];
    var rank := pos[1] as int - '0' as int;
    if 'a' <= file <= 'h' && 1 <= rank <= 8 then Some((8 - rank, file as int - 'a' as int))
    else None
  }

  /** `index_to_pos`: the file letter followed by the rank digit, for a pair
      on the board; `None` otherwise. */
  function IndexToPos(index: (nat, nat)): (r: Option<string>)
    ensures r.Some? <==> index.0 < 8 && index.1 < 8
    ensures r.Some? ==> |r.value| == 2 && r.value[0] < 128 as char && IsDigit(r.value[1])
    ensures r.Some? ==> r.value == [('a' as int + index.1) as char, ('0' as int + 8 - index.0) as char]
  {
    if index.0 < 8 && index.1 < 8 then
      Some([('a' as int + index.1) as char, ('0' as int + (8 - index.0)) as char])
    else None
  }

  /** Every square's name reads back as that square. */
  lemma IndexToPosRoundTrip(index: (nat, nat))
    requires index.0 < 8 && index.1 < 8
    ensures PosToIndex(IndexToPos(index).value) == Some(index)
  {
  }

  /** Every accepted name is the name of the square it reads as. */
  lemma PosToIndexRoundTrip(pos: string)
    requires |pos| == 2 && 'a' <= pos[0] <= 'h' && '1' <= pos[1] <= '8'
    ensures IndexToPos(PosToIndex(pos).value) == Some(pos)
  {
    var index := PosToIndex(pos).value;
    var name := IndexToPos(index).value;
    assert name[0] == ('a' as int + (pos[0] as int - 'a' as int)) as char == pos[0];
    assert name[1] == ('0' as int + (pos[1] as int - '0' as int)) as char == pos[1];
    assert name == pos;
  }

  // ---------------------------------------------------------------------
  // Bitset enumeration

  /** The members of `s` below `n`, in ascending order. */
  function Below(s: set<int>, n: nat): (r: seq<int>)
    ensures forall i :: 0 <= i < |r| ==> 0 <= r[i] < n && r[i] in s
    decreases n
  {
    if n == 0 then [] else Below(s, n - 1) + (if n - 1 in s then [n - 1] else [])
  }

  /** `Below` lists every member of `s` below `n`, each once, in strictly
      ascending order. */
  lemma {:induction false} BelowExact(s: set<int>, n: nat)
    ensures forall t :: t in Below(s, n) <==> 0 <= t < n && t in s
    ensures forall i, j :: 0 <= i < j < |Below(s, n)| ==> Below(s, n)[i] < Below(s, n)[j]
    decreases n
  {
    if n > 0 {
      BelowExact(s, n - 1);
    }
  }

  /** A property of every element of two lists holds of every element of
      their concatenation. */
  lemma ConcatAll<T>(xs: seq<T>, ys: seq<T>, p: T -> bool)
    requires forall i :: 0 <= i < |xs| ==> p(xs[i])
    requires forall i :: 0 <= i < |ys| ==> p(ys[i])
    ensures forall i :: 0 <= i < |xs + ys| ==> p((xs + ys)[i])
  {
    forall i | 0 <= i < |xs + ys|
      ensures p((xs + ys)[i])
    {
      if i >= |xs| {
        assert (xs + ys)[i] == ys[i - |xs|];
      }
    }
  }

  /** Any two entries of `Below` are in ascending order. */
  lemma BelowAscending(s: set<int>, n: nat, i: int, j: int)
    requires 0 <= i < j < |Below(s, n)|
    ensures Below(s, n)[i] < Below(s, n)[j]
  {
    BelowExact(s, n);
  }

  /** One more number examined. */
  lemma BelowStep(s: set<int>, n: nat)
    ensures Below(s, n + 1) == Below(s, n) + (if n in s then [n] else [])
  {
  }

  /** Each member of `s` below `n` has its place in `Below`. */
  lemma BelowIndex(s: set<int>, n: nat, t: int) returns (i: nat)
    requires 0 <= t < n && t in s
    ensures i < |Below(s, n)| && Below(s, n)[i] == t
  {
    BelowExact(s, n);
    i :| i < |Below(s, n)| && Below(s, n)[i] == t;
  }

  /** The name `index_to_pos` gives a square. */
  function SquareName(square: int): (name: string)
    requires InRange(square)
    ensures |name| == 2 && name[0] < 128 as char && IsDigit(name[1])
    ensures PosToIndex(name) == Some((square / 8, square % 8))
  {
    IndexToPosRoundTrip((square / 8, square % 8));
    IndexToPos((square / 8, square % 8)).value
  }

  /** The names of squares, in their order. */
  function Names(squares: seq<int>): (names: seq<string>)
    requires forall i :: 0 <= i < |squares| ==> InRange(squares[i])
  {
    seq(|squares|, i requires 0 <= i < |squares| => SquareName(squares[i]))
  }

  /** One more square at the end of the list. */
  lemma NamesSnoc(squares: seq<int>, square: int)
    requires forall i :: 0 <= i < |squares| ==> InRange(squares[i])
    requires InRange(square)
    ensures Names(squares + [square]) == Names(squares) + [SquareName(square)]
  {
  }

  /** The names of the set squares below `n + 1`. */
  lemma NamesStep(b: Bitset, n: nat)
    requires n < 64
    ensures Names(Below(b.Squares(), n + 1)) ==
              Names(Below(b.Squares(), n)) + (if b.IsBitSet(n) then [SquareName(n)] else [])
  {
    var before := Below(b.Squares(), n);
    assert n in b.Squares() <==> b.IsBitSet(n);
    BelowStep(b.Squares(), n);
    if b.IsBitSet(n) {
      NamesSnoc(before, n);
    }
  }

  /** The names of the set squares up to (rank, file), in the terms of the
      loop of `bitset_to_pos`. */
  lemma NamesAtSquare(b: Bitset, rank: nat, file: nat)
    requires rank < 8 && file < 8
    ensures Names(Below(b.Squares(), rank * 8 + (file + 1))) ==
              Names(Below(b.Squares(), rank * 8 + file)) +
              (if b.IsBitSet(rank * 8 + file) then [IndexToPos((rank, file)).value] else [])
  {
    assert (rank * 8 + file) / 8 == rank && (rank * 8 + file) % 8 == file;
    NamesStep(b, rank * 8 + file);
  }

  /** `bitset_to_pos`: the names of the set squares, rank by rank and file by
      file, which is ascending square order. */
  method BitsetToPos(bitset: Bitset) returns (result: seq<string>)
    ensures result == Names(Below(bitset.Squares(), 64))
  {
    result := [];
    for rank := 0 to 8
      invariant result == Names(Below(bitset.Squares(), rank * 8))
    {
      for file := 0 to 8
        invariant result == Names(Below(bitset.Squares(), rank * 8 + file))
      {
        NamesAtSquare(bitset, rank, file);
        var square := rank * 8 + file;
        if bitset.IsBitSet(square) {
          result := result + [IndexToPos((rank, file)).value];
        }
      }
      assert rank * 8 + 8 == (rank + 1) * 8;
    }
  }

  /** Each name `bitset_to_pos` lists reads back, through `pos_to_index`,
      to a set square. */
  lemma BitsetNamesSet(b: Bitset)
    ensures var names := Names(Below(b.Squares(), 64));
      forall i :: 0 <= i < |names| ==>
        PosToIndex(names[i]).Some? && b.IsBitSet(PosToIndex(names[i]).value.0 * 8 + PosToIndex(names[i]).value.1)
  {
    var squares := Below(b.Squares(), 64);
    var names := Names(squares);
    forall i | 0 <= i < |names|
      ensures PosToIndex(names[i]).Some? && b.IsBitSet(PosToIndex(names[i]).value.0 * 8 + PosToIndex(names[i]).value.1)
    {
      var sq := squares[i];
      assert names[i] == SquareName(sq);
      assert sq / 8 * 8 + sq % 8 == sq;
      assert b.IsBitSet(sq);
    }
  }

  /** Every set square is named by `bitset_to_pos`. */
  lemma BitsetNamesAll(b: Bitset)
    ensures forall t :: InRange(t) && b.IsBitSet(t) ==> SquareName(t) in Names(Below(b.Squares(), 64))
  {
    var squares := Below(b.Squares(), 64);
    forall t | InRange(t) && b.IsBitSet(t)
      ensures SquareName(t) in Names(squares)
    {
      assert t in b.Squares();
      var i := BelowIndex(b.Squares(), 64, t);
      assert Names(squares)[i] == SquareName(t);
    }
  }

  /** Of two squares, the lower-numbered one is named on a higher rank, or
      on the same rank at an earlier file. */
  lemma SquareNamesInOrder(t: int, u: int)
    requires InRange(t) && InRange(u) && t < u
    ensures SquareName(t)[1] > SquareName(u)[1] ||
            (SquareName(t)[1] == SquareName(u)[1] && SquareName(t)[0] < SquareName(u)[0])
  {
    assert t / 8 < u / 8 || (t / 8 == u / 8 && t % 8 < u % 8);
  }

  /** `bitset_to_pos` lists the names from the eighth rank down to the
      first, from file a to file h along each rank, each name once. */
  lemma BitsetNamesOrdered(b: Bitset)
    ensures var names := Names(Below(b.Squares(), 64));
      forall i, j :: 0 <= i < j < |names| ==>
        names[i][1] > names[j][1] || (names[i][1] == names[j][1] && names[i][0] < names[j][0])
  {
    var squares := Below(b.Squares(), 64);
    var names := Names(squares);
    forall i, j | 0 <= i < j < |names|
      ensures names[i][1] > names[j][1] || (names[i][1] == names[j][1] && names[i][0] < names[j][0])
    {
      BelowAscending(b.Squares(), 64, i, j);
      SquareNamesInOrder(squares[i], squares[j]);
    }
  }

  // ---------------------------------------------------------------------
  // Moves typed by the player

  /** `CASTLING_MOVES`: the king's two-square steps from its home square. */
  const CastlingMoves: seq<((nat, nat), (nat, nat))> :=
    [((7, 4), (7, 6)), ((7, 4), (7, 2)), ((0, 4), (0, 6)), ((0, 4), (0, 2))]

  /** `parse_move`, for a move from an occupied square (it panics otherwise):
      the piece on `from`, and `Castling` for the four castling steps, else
      `Capture` of whatever stands on `to`, else `Normal`. */
  function ParseMove(pos: Position, from: (nat, nat), to: (nat, nat)): (m: ParsedMove)
    requires pos.Valid() && InRange(Square(from.0, from.1)) && InRange(Square(to.0, to.1))
    requires PieceAt(pos, Square(from.0, from.1)).Some?
    ensures m.from == from && m.to == to && Some(m.piece) == PieceAt(pos, Square(from.0, from.1))
    ensures m.moveType.Castling? <==> (from, to) in CastlingMoves
    ensures forall p :: m.moveType == Capture(p) <==>
              (from, to) !in CastlingMoves && PieceAt(pos, Square(to.0, to.1)) == Some(p)
    ensures m.moveType.Normal? <==> (from, to) !in CastlingMoves && PieceAt(pos, Square(to.0, to.1)).None?
  {
    var piece := PieceAt(pos, from.0 * 8 + from.1).value;
    var moveType :=
      if (from, to) in CastlingMoves then Castling
      else match PieceAt(pos, to.0 * 8 + to.1)
        case Some(capture) => Capture(capture)
        case None => Normal;
    ParsedMove(from, to, piece, moveType)
  }

  /** A parsed move that is not a castling step is, in the shape
      `make_move` takes, exactly the move the board describes. */
  lemma ParsedMoveDescribed(pos: Position, from: (nat, nat), to: (nat, nat))
    requires pos.Valid() && InRange(Square(from.0, from.1)) && InRange(Square(to.0, to.1))
    requires PieceAt(pos, Square(from.0, from.1)).Some?
    requires (from, to) !in CastlingMoves
    ensures OnBoardMove(ToBoardMove(ParseMove(pos, from, to)))
    ensures Described(pos, ToBoardMove(ParseMove(pos, from, to)))
  {
    var m := ParseMove(pos, from, to);
    if PieceAt(pos, Square(to.0, to.1)).Some? {
      assert m.moveType == Capture(PieceAt(pos, Square(to.0, to.1)).value);
    }
  }

  // ---------------------------------------------------------------------
  // Every move of the side to move

  /** What `current_side_moves` needs to call `valid_moves` on every square
      of the side to move: a bishop, rook or queen, or a square `get` finds
      empty (the generator has no other branch). */
  predicate SideGeneratorDefined(pos: Position)
    requires pos.Valid()
  {
    forall s :: 0 <= s < 64 && pos.occupied[pos.sideToMove.Index()].IsBitSet(s) ==>
      GeneratorDefined(pos, (s / 8, s % 8))
  }

  /** The parsed moves from `from` to the given generated targets, in their
      order. */
  function MovesTo(pos: Position, from: (nat, nat), targets: seq<int>): (ms: seq<ParsedMove>)
    requires pos.Valid() && InRange(Square(from.0, from.1)) && GeneratorDefined(pos, from)
    requires forall i :: 0 <= i < |targets| ==> targets[i] in ValidTargets(pos, from)
  {
    seq(|targets|, i requires 0 <= i < |targets| =>
      assert targets[i] in ValidTargets(pos, from);
      var t: nat := targets[i];
      ParseMove(pos, from, (t / 8, t % 8)))
  }

  /** One more target at the end of the list. */
  lemma MovesToSnoc(pos: Position, from: (nat, nat), targets: seq<int>, t: nat)
    requires pos.Valid() && InRange(Square(from.0, from.1)) && GeneratorDefined(pos, from)
    requires forall i :: 0 <= i < |targets| ==> targets[i] in ValidTargets(pos, from)
    requires t in ValidTargets(pos, from)
    ensures MovesTo(pos, from, targets + [t]) == MovesTo(pos, from, targets) + [ParseMove(pos, from, (t / 8, t % 8))]
  {
  }

  /** The parsed moves from `from` to the generated targets below `n`, in
      ascending target order. */
  function MovesFrom(pos: Position, from: (nat, nat), n: nat): (ms: seq<ParsedMove>)
    requires pos.Valid() && InRange(Square(from.0, from.1)) && GeneratorDefined(pos, from)
  {
    MovesTo(pos, from, Below(ValidTargets(pos, from), n))
  }

  /** One more target examined, at (rank, file). */
  lemma MovesFromStep(pos: Position, from: (nat, nat), rank: nat, file: nat)
    requires pos.Valid() && InRange(Square(from.0, from.1)) && GeneratorDefined(pos, from)
    requires rank < 8 && file < 8
    ensures MovesFrom(pos, from, rank * 8 + (file + 1)) ==
              MovesFrom(pos, from, rank * 8 + file) +
              (if rank * 8 + file in ValidTargets(pos, from) then [ParseMove(pos, from, (rank, file))] else [])
  {
    var square := rank * 8 + file;
    assert rank * 8 + (file + 1) == square + 1;
    assert (square / 8, square % 8) == (rank, file);
    MovesFromNext(pos, from, square);
  }

  /** One iteration of the file loop of `current_side_moves`, stated over the
      bitset `valid_moves` returned: a set bit has a piece on `from` to parse a
      move for, and pushing that move extends the list by one target. */
  lemma PushStep(pos: Position, from: (nat, nat), valid: Bitset, rank: nat, file: nat, moves: seq<ParsedMove>, pushed: seq<ParsedMove>)
    requires pos.Valid() && InRange(Square(from.0, from.1)) && GeneratorDefined(pos, from)
    requires valid.Squares() == ValidTargets(pos, from)
    requires rank < 8 && file < 8
    requires pushed == moves + MovesFrom(pos, from, rank * 8 + file)
    ensures InRange(Square(rank, file))
    ensures valid.IsBitSet(rank * 8 + file) ==> PieceAt(pos, Square(from.0, from.1)).Some?
    ensures (if valid.IsBitSet(rank * 8 + file) then pushed + [ParseMove(pos, from, (rank, file))] else pushed) ==
              moves + MovesFrom(pos, from, rank * 8 + (file + 1))
  {
    MovesFromStep(pos, from, rank, file);
    assert InRange(rank * 8 + file);
    assert valid.IsBitSet(rank * 8 + file) <==> rank * 8 + file in valid.Squares();
    if valid.IsBitSet(rank * 8 + file) {
      var m := ParseMove(pos, from, (rank, file));
      assert pushed + [m] == moves + (MovesFrom(pos, from, rank * 8 + file) + [m]);
    }
  }

  /** One more target examined, numbered `n`. */
  lemma MovesFromNext(pos: Position, from: (nat, nat), n: nat)
    requires pos.Valid() && InRange(Square(from.0, from.1)) && GeneratorDefined(pos, from)
    ensures MovesFrom(pos, from, n + 1) ==
              MovesFrom(pos, from, n) +
              (if n in ValidTargets(pos, from) then [ParseMove(pos, from, (n / 8, n % 8))] else [])
  {
    var targets := ValidTargets(pos, from);
    var before := Below(targets, n);
    BelowStep(targets, n);
    if n in targets {
      MovesToSnoc(pos, from, before, n);
    }
  }

  /** The moves `current_side_moves` lists from the squares below `n`. */
  function SideMovesBelow(pos: Position, n: nat): (ms: seq<ParsedMove>)
    requires pos.Valid() && SideGeneratorDefined(pos) && n <= 64
    decreases n
  {
    if n == 0 then []
    else
      SideMovesBelow(pos, n - 1) +
      (if pos.occupied[pos.sideToMove.Index()].IsBitSet(n - 1) then MovesFrom(pos, ((n - 1) / 8, (n - 1) % 8), 64) else [])
  }

  /** The inner loops of `current_side_moves` for one origin square: the
      targets `valid_moves` generates, rank by rank and file by file, each
      parsed into a move and pushed after `moves`. */
  method PushMovesFrom(pos: Position, from: (nat, nat), moves: seq<ParsedMove>) returns (result: seq<ParsedMove>)
    requires pos.Valid() && InRange(Square(from.0, from.1)) && GeneratorDefined(pos, from)
    ensures result == moves + MovesFrom(pos, from, 64)
  {
    var valid := MoveGen.ValidMoves(pos, from);
    result := moves;
    for rank := 0 to 8
      invariant result == moves + MovesFrom(pos, from, rank * 8)
    {
      result := PushRank(pos, from, valid, rank, moves, result);
      assert rank * 8 + 8 == (rank + 1) * 8;
    }
  }

  /** The file loop of `current_side_moves` on one rank: the moves to the
      generated targets of that rank, pushed in file order. */
  method PushRank(pos: Position, from: (nat, nat), valid: Bitset, rank: nat, moves: seq<ParsedMove>, pushed: seq<ParsedMove>)
    returns (result: seq<ParsedMove>)
    requires pos.Valid() && InRange(Square(from.0, from.1)) && GeneratorDefined(pos, from)
    requires valid.Squares() == ValidTargets(pos, from)
    requires rank < 8 && pushed == moves + MovesFrom(pos, from, rank * 8)
    ensures result == moves + MovesFrom(pos, from, rank * 8 + 8)
  {
    result := pushed;
    for file := 0 to 8
      invariant result == moves + MovesFrom(pos, from, rank * 8 + file)
    {
      var to := (rank, file);
      PushStep(pos, from, valid, rank, file, moves, result);
      if valid.IsBitSet(to.0 * 8 + to.1) {
        var chessMove := ParseMove(pos, from, to);
        result := result + [chessMove];
      }
    }
  }

  /** `current_side_moves`: for every square the side to move occupies, in
      ascending order, one parsed move per generated target, in ascending
      order. */
  method CurrentSideMoves(pos: Position) returns (moves: seq<ParsedMove>)
    requires pos.Valid() && SideGeneratorDefined(pos)
    ensures moves == SideMovesBelow(pos, 64)
  {
    moves := [];
    for square := 0 to 64
      invariant moves == SideMovesBelow(pos, square)
    {
      var occupied := pos.occupied[pos.sideToMove.Index()];
      if occupied.IsBitSet(square) {
        moves := PushMovesFrom(pos, (square / 8, square % 8), moves);
      }
    }
  }

  /** The order `current_side_moves` lists moves in: by origin square, then
      by target square. */
  function MoveKey(m: ParsedMove): int
  {
    Square(m.from.0, m.from.1) * 64 + Square(m.to.0, m.to.1)
  }

  /** A move listed from `from` among the targets below `n`: it leaves
      `from` with the piece standing there and reaches a generated target
      below `n`. */
  ghost predicate ListedFrom(pos: Position, from: (nat, nat), n: nat, m: ParsedMove)
    requires pos.Valid() && InRange(Square(from.0, from.1)) && GeneratorDefined(pos, from)
  {
    m.from == from && InRange(Square(m.to.0, m.to.1)) && Square(m.to.0, m.to.1) < n &&
    Square(m.to.0, m.to.1) in ValidTargets(pos, from) &&
    PieceAt(pos, Square(from.0, from.1)) == Some(m.piece)
  }

  /** The move at place `i` of the list from one square. */
  lemma MovesFromAt(pos: Position, from: (nat, nat), n: nat, i: int)
    requires pos.Valid() && InRange(Square(from.0, from.1)) && GeneratorDefined(pos, from)
    requires 0 <= i < |MovesFrom(pos, from, n)|
    ensures ListedFrom(pos, from, n, MovesFrom(pos, from, n)[i])
  {
    var t := Below(ValidTargets(pos, from), n)[i];
    assert MovesFrom(pos, from, n)[i] == ParseMove(pos, from, (t / 8, t % 8));
    assert Square(t / 8, t % 8) == t;
  }

  /** Each move listed from one square leaves it with the piece standing
      there and reaches a generated target below `n`. */
  lemma MovesFromListed(pos: Position, from: (nat, nat), n: nat)
    requires pos.Valid() && InRange(Square(from.0, from.1)) && GeneratorDefined(pos, from)
    ensures forall i :: 0 <= i < |MovesFrom(pos, from, n)| ==> ListedFrom(pos, from, n, MovesFrom(pos, from, n)[i])
  {
    forall i | 0 <= i < |MovesFrom(pos, from, n)|
      ensures ListedFrom(pos, from, n, MovesFrom(pos, from, n)[i])
    {
      MovesFromAt(pos, from, n, i);
    }
  }

  /** Every generated target below `n` is reached by a listed move. */
  lemma MovesFromComplete(pos: Position, from: (nat, nat), n: nat)
    requires pos.Valid() && InRange(Square(from.0, from.1)) && GeneratorDefined(pos, from)
    ensures forall t :: 0 <= t < n && t in ValidTargets(pos, from) ==>
              exists i :: 0 <= i < |MovesFrom(pos, from, n)| && Square(MovesFrom(pos, from, n)[i].to.0, MovesFrom(pos, from, n)[i].to.1) == t
  {
    forall t | 0 <= t < n && t in ValidTargets(pos, from)
      ensures exists i :: 0 <= i < |MovesFrom(pos, from, n)| && Square(MovesFrom(pos, from, n)[i].to.0, MovesFrom(pos, from, n)[i].to.1) == t
    {
      var i := BelowIndex(ValidTargets(pos, from), n, t);
      assert MovesFrom(pos, from, n)[i].to == (t / 8, t % 8);
      assert Square(t / 8, t % 8) == t;
    }
  }

  /** The moves from one square come in strictly ascending target order. */
  lemma MovesFromOrdered(pos: Position, from: (nat, nat), n: nat)
    requires pos.Valid() && InRange(Square(from.0, from.1)) && GeneratorDefined(pos, from)
    ensures forall i, j :: 0 <= i < j < |MovesFrom(pos, from, n)| ==>
              MoveKey(MovesFrom(pos, from, n)[i]) < MoveKey(MovesFrom(pos, from, n)[j])
  {
    var targets := Below(ValidTargets(pos, from), n);
    var ms := MovesFrom(pos, from, n);
    forall i, j | 0 <= i < j < |ms|
      ensures MoveKey(ms[i]) < MoveKey(ms[j])
    {
      BelowAscending(ValidTargets(pos, from), n, i, j);
      var t, u := targets[i], targets[j];
      assert Square(t / 8, t % 8) == t && Square(u / 8, u % 8) == u;
    }
  }

  /** A move `current_side_moves` lists from the squares below `n`: it
      starts on a square below `n` that the side to move occupies, with a
      piece of that side, and ends on a target `valid_moves` generates from
      there. */
  ghost predicate SideListed(pos: Position, n: nat, m: ParsedMove)
    requires pos.Valid()
  {
    InRange(Square(m.from.0, m.from.1)) && Square(m.from.0, m.from.1) < n &&
    pos.occupied[pos.sideToMove.Index()].IsBitSet(Square(m.from.0, m.from.1)) &&
    GeneratorDefined(pos, m.from) && Square(m.to.0, m.to.1) in ValidTargets(pos, m.from) &&
    PieceAt(pos, Square(m.from.0, m.from.1)) == Some(m.piece) && m.piece.Color() == pos.sideToMove
  }

  /** Every move `current_side_moves` lists is a move of the side to move
      to a generated target. */
  lemma {:induction false} SideMovesListed(pos: Position, n: nat)
    requires pos.Valid() && SideGeneratorDefined(pos) && n <= 64
    ensures forall i :: 0 <= i < |SideMovesBelow(pos, n)| ==> SideListed(pos, n, SideMovesBelow(pos, n)[i])
    decreases n
  {
    if n > 0 {
      SideMovesListed(pos, n - 1);
      var prev := SideMovesBelow(pos, n - 1);
      var from := ((n - 1) / 8, (n - 1) % 8);
      var added := if pos.occupied[pos.sideToMove.Index()].IsBitSet(n - 1) then MovesFrom(pos, from, 64) else [];
      assert SideMovesBelow(pos, n) == prev + added;
      forall i | 0 <= i < |prev|
        ensures SideListed(pos, n, prev[i])
      {
      }
      forall k | 0 <= k < |added|
        ensures SideListed(pos, n, added[k])
      {
        assert Square(from.0, from.1) == n - 1;
        MovesFromAt(pos, from, 64, k);
      }
      ConcatAll(prev, added, m => SideListed(pos, n, m));
    }
  }

  /** `current_side_moves` lists its moves in strictly ascending (origin,
      target) order. */
  lemma {:induction false} SideMovesOrdered(pos: Position, n: nat)
    requires pos.Valid() && SideGeneratorDefined(pos) && n <= 64
    ensures forall i, j :: 0 <= i < j < |SideMovesBelow(pos, n)| ==>
              MoveKey(SideMovesBelow(pos, n)[i]) < MoveKey(SideMovesBelow(pos, n)[j])
    decreases n
  {
    if n > 0 && pos.occupied[pos.sideToMove.Index()].IsBitSet(n - 1) {
      SideMovesOrdered(pos, n - 1);
      SideMovesListed(pos, n - 1);
      var prev := SideMovesBelow(pos, n - 1);
      var from := ((n - 1) / 8, (n - 1) % 8);
      var added := MovesFrom(pos, from, 64);
      var ms := prev + added;
      assert Square(from.0, from.1) == n - 1;
      MovesFromListed(pos, from, 64);
      MovesFromOrdered(pos, from, 64);
      forall i, j | 0 <= i < j < |ms|
        ensures MoveKey(ms[i]) < MoveKey(ms[j])
      {
        if j < |prev| {
          assert ms[i] == prev[i] && ms[j] == prev[j];
        } else if i < |prev| {
          assert ms[i] == prev[i] && ms[j] == added[j - |prev|];
          assert SideListed(pos, n - 1, prev[i]);
          assert ListedFrom(pos, from, 64, added[j - |prev|]);
        } else {
          assert ms[i] == added[i - |prev|] && ms[j] == added[j - |prev|];
        }
      }
    } else if n > 0 {
      SideMovesOrdered(pos, n - 1);
    }
  }
}
