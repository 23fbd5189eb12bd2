/**
 * What the move generator of src/movegen.rs computes, stated as sets of
 * square indices over a Position: the ray walk of `sliding_moves`, the rook,
 * bishop and queen dispatch and `valid_moves`, with the properties the
 * generator promises. The methods in module MoveGen compute these sets as
 * Bitsets.
 */
module Targets {
  import opened Wrappers
  import opened Bitsets
  import opened Pieces
  import opened Positions

  /** A step (rank delta, file delta), each in -1..1 and not both zero. */
  predicate IsDirection(d: (int, int))
  {
    -1 <= d.0 <= 1 && -1 <= d.1 <= 1 && d != (0, 0)
  }

  predicate AllDirections(ds: seq<(int, int)>)
  {
    forall i :: 0 <= i < |ds| ==> IsDirection(ds[i])
  }

  const RookDirections: seq<(int, int)> := [(1, 0), (-1, 0), (0, 1), (0, -1)]
  const BishopDirections: seq<(int, int)> := [(1, 1), (1, -1), (-1, 1), (-1, -1)]

  predicate OnBoard(rank: int, file: int)
  {
    0 <= rank < 8 && 0 <= file < 8
  }

  /** `occupied[side_to_move.index()]` holds the square. */
  predicate OwnAt(pos: Position, t: int)
    requires pos.Valid() && InRange(t)
  {
    pos.occupied[pos.sideToMove.Index()].IsBitSet(t)
  }

  /** `occupied[side_to_move.opposite().index()]` holds the square. */
  predicate EnemyAt(pos: Position, t: int)
    requires pos.Valid() && InRange(t)
  {
    pos.occupied[pos.sideToMove.Opposite().Index()].IsBitSet(t)
  }

  /** Distance, counted in steps, from (rank, file) to the edge the step
      heads for; it shrinks by one with every step that stays on the board. */
  function RayMeasure(rank: int, file: int, d: (int, int)): nat
  {
    var dr := if d.0 > 0 && rank < 8 then 8 - rank else if d.0 < 0 && rank >= 0 then rank + 1 else 0;
    var df := if d.1 > 0 && file < 8 then 8 - file else if d.1 < 0 && file >= 0 then file + 1 else 0;
    dr + df
  }

  /** The squares the inner loop of `sliding_moves` adds for one direction,
      walking on from (rank, file): it stops before a square of the side to
      move, adds and stops at a square of the other side, and goes on across
      an empty square. */
  function Ray(pos: Position, rank: int, file: int, d: (int, int)): set<int>
    requires pos.Valid() && IsDirection(d)
    decreases RayMeasure(rank, file, d)
  {
    var r, f := rank + d.0, file + d.1;
    if !OnBoard(r, f) then {}
    else
      var t := Square(r, f);
      if OwnAt(pos, t) then {}
      else if EnemyAt(pos, t) then {t}
      else {t} + Ray(pos, r, f, d)
  }

  /** One step of a ray onto the board: the walk stops before a square of
      the side to move, stops at a square of the other side, and goes on
      across an empty square, each step shrinking the measure. */
  lemma RayStep(pos: Position, rank: int, file: int, d: (int, int))
    requires pos.Valid() && IsDirection(d) && OnBoard(rank + d.0, file + d.1)
    ensures RayMeasure(rank + d.0, file + d.1, d) < RayMeasure(rank, file, d)
    ensures OwnAt(pos, Square(rank + d.0, file + d.1)) ==> Ray(pos, rank, file, d) == {}
    ensures !OwnAt(pos, Square(rank + d.0, file + d.1)) && EnemyAt(pos, Square(rank + d.0, file + d.1)) ==>
              Ray(pos, rank, file, d) == {Square(rank + d.0, file + d.1)}
    ensures !OwnAt(pos, Square(rank + d.0, file + d.1)) && !EnemyAt(pos, Square(rank + d.0, file + d.1)) ==>
              Ray(pos, rank, file, d) == {Square(rank + d.0, file + d.1)} + Ray(pos, rank + d.0, file + d.1, d)
  {
  }

  /** `sliding_moves`: the union of the rays of the given directions. */
  function Sliding(pos: Position, rank: int, file: int, ds: seq<(int, int)>): set<int>
    requires pos.Valid() && AllDirections(ds)
  {
    if ds == [] then {}
    else Sliding(pos, rank, file, ds[..|ds| - 1]) + Ray(pos, rank, file, ds[|ds| - 1])
  }

  /** `rook_moves`. */
  function RookTargets(pos: Position, rank: int, file: int): set<int>
    requires pos.Valid()
  {
    Sliding(pos, rank, file, RookDirections)
  }

  /** `bishop_moves`. */
  function BishopTargets(pos: Position, rank: int, file: int): set<int>
    requires pos.Valid()
  {
    Sliding(pos, rank, file, BishopDirections)
  }

  /** `queen_moves`: the rook moves together with the bishop moves. */
  function QueenTargets(pos: Position, rank: int, file: int): set<int>
    requires pos.Valid()
  {
    RookTargets(pos, rank, file) + BishopTargets(pos, rank, file)
  }

  /** `valid_moves` returns without reaching a `todo!()`: the origin is empty,
      holds a piece of the side not to move, or holds a sliding piece. */
  predicate GeneratorDefined(pos: Position, from: (nat, nat))
    requires pos.Valid() && InRange(Square(from.0, from.1))
  {
    var p := PieceAt(pos, Square(from.0, from.1));
    p.None? || p.value.Color() != pos.sideToMove || p.value.IsSlider()
  }

  /** `valid_moves`: nothing from an empty square or out of turn; otherwise
      the sliding moves of the piece found by `get`. Every target is a board
      square that the side to move does not occupy. */
  function ValidTargets(pos: Position, from: (nat, nat)): (r: set<int>)
    requires pos.Valid() && InRange(Square(from.0, from.1)) && GeneratorDefined(pos, from)
    ensures PieceAt(pos, Square(from.0, from.1)).None? ==> r == {}
    ensures (PieceAt(pos, Square(from.0, from.1)).Some? &&
             PieceAt(pos, Square(from.0, from.1)).value.Color() != pos.sideToMove) ==> r == {}
    ensures forall t :: t in r ==> InRange(t) && !OwnAt(pos, t)
  {
    match PieceAt(pos, Square(from.0, from.1))
    case None => {}
    case Some(p) =>
      if p.Color() != pos.sideToMove then {}
      else
        SlidingStaysOffOwn(pos, from.0, from.1, RookDirections);
        SlidingStaysOffOwn(pos, from.0, from.1, BishopDirections);
        match p
        case WhiteBishop | BlackBishop => BishopTargets(pos, from.0, from.1)
        case WhiteRook | BlackRook => RookTargets(pos, from.0, from.1)
        case WhiteQueen | BlackQueen => QueenTargets(pos, from.0, from.1)
  }

  /** Coordinate reached after `k` steps of `delta` (-1, 0 or 1) from `x`. */
  function Along(x: int, delta: int, k: int): int
  {
    if delta > 0 then x + k else if delta < 0 then x - k else x
  }

  /** A board square that neither colour's occupancy word holds. */
  predicate EmptyAt(pos: Position, rank: int, file: int)
    requires pos.Valid()
  {
    OnBoard(rank, file) && !OwnAt(pos, Square(rank, file)) && !EnemyAt(pos, Square(rank, file))
  }

  /** Square `t` lies `k >= 1` steps along direction `d` from (rank, file), on
      the board, not held by the side to move, with every earlier square of
      the ray empty. */
  ghost predicate Reached(pos: Position, rank: int, file: int, d: (int, int), k: int, t: int)
    requires pos.Valid()
  {
    1 <= k &&
    (forall j :: 1 <= j < k ==> EmptyAt(pos, Along(rank, d.0, j), Along(file, d.1, j))) &&
    OnBoard(Along(rank, d.0, k), Along(file, d.1, k)) &&
    t == Square(Along(rank, d.0, k), Along(file, d.1, k)) &&
    !OwnAt(pos, t)
  }

  /** A square reached in `k` steps from the square one step along `d`,
      that square being empty, is reached in `k + 1` steps. */
  lemma ReachedShift(pos: Position, rank: int, file: int, d: (int, int), k: int, t: int)
    requires pos.Valid() && IsDirection(d)
    requires EmptyAt(pos, rank + d.0, file + d.1) && Reached(pos, rank + d.0, file + d.1, d, k, t)
    ensures Reached(pos, rank, file, d, k + 1, t)
  {
    var r, f := rank + d.0, file + d.1;
    assert r == Along(rank, d.0, 1) && f == Along(file, d.1, 1);
    forall j | 1 <= j < k + 1
      ensures EmptyAt(pos, Along(rank, d.0, j), Along(file, d.1, j))
    {
      if j > 1 {
        assert Along(rank, d.0, j) == Along(r, d.0, j - 1);
        assert Along(file, d.1, j) == Along(f, d.1, j - 1);
      }
    }
    assert Along(rank, d.0, k + 1) == Along(r, d.0, k);
    assert Along(file, d.1, k + 1) == Along(f, d.1, k);
  }

  /** Every square of a ray is reached by k >= 1 steps over empty squares. */
  lemma {:induction false} RaySound(pos: Position, rank: int, file: int, d: (int, int), t: int)
    requires pos.Valid() && IsDirection(d)
    requires t in Ray(pos, rank, file, d)
    ensures exists k :: Reached(pos, rank, file, d, k, t)
    decreases RayMeasure(rank, file, d)
  {
    var r, f := rank + d.0, file + d.1;
    if t == Square(r, f) {
      assert r == Along(rank, d.0, 1) && f == Along(file, d.1, 1);
      assert Reached(pos, rank, file, d, 1, t);
    } else {
      assert EmptyAt(pos, r, f) && t in Ray(pos, r, f, d);
      RaySound(pos, r, f, d, t);
      var k :| Reached(pos, r, f, d, k, t);
      ReachedShift(pos, rank, file, d, k, t);
    }
  }

  /** Every square reached by k >= 1 steps over empty squares is on the ray. */
  lemma {:induction false} RayComplete(pos: Position, rank: int, file: int, d: (int, int), k: int, t: int)
    requires pos.Valid() && IsDirection(d)
    requires Reached(pos, rank, file, d, k, t)
    ensures t in Ray(pos, rank, file, d)
    decreases k
  {
    var r, f := rank + d.0, file + d.1;
    assert r == Along(rank, d.0, 1) && f == Along(file, d.1, 1);
    if k > 1 {
      assert EmptyAt(pos, r, f);
      forall j | 1 <= j < k - 1
        ensures EmptyAt(pos, Along(r, d.0, j), Along(f, d.1, j))
      {
        assert Along(r, d.0, j) == Along(rank, d.0, j + 1);
        assert Along(f, d.1, j) == Along(file, d.1, j + 1);
      }
      assert Along(r, d.0, k - 1) == Along(rank, d.0, k);
      assert Along(f, d.1, k - 1) == Along(file, d.1, k);
      RayComplete(pos, r, f, d, k - 1, t);
    }
  }

  /** A square is on a ray exactly when it is reached by k >= 1 steps over
      empty squares. */
  lemma RayExactly(pos: Position, rank: int, file: int, d: (int, int), t: int)
    requires pos.Valid() && IsDirection(d)
    ensures t in Ray(pos, rank, file, d) <==> exists k :: Reached(pos, rank, file, d, k, t)
  {
    if t in Ray(pos, rank, file, d) {
      RaySound(pos, rank, file, d, t);
    }
    if k :| Reached(pos, rank, file, d, k, t) {
      RayComplete(pos, rank, file, d, k, t);
    }
  }

  /** The squares of distinct on-board coordinates are distinct. */
  lemma SquareInjective(r1: int, f1: int, r2: int, f2: int)
    requires OnBoard(r1, f1) && OnBoard(r2, f2)
    ensures Square(r1, f1) == Square(r2, f2) ==> r1 == r2 && f1 == f2
    ensures InRange(Square(r1, f1))
  {
  }

  /** On each ray, the first square of the other side is included and no
      square beyond it is. */
  lemma FirstEnemyEndsRay(pos: Position, rank: int, file: int, d: (int, int), k: int)
    requires pos.Valid() && IsDirection(d) && 1 <= k
    requires forall j :: 1 <= j < k ==> EmptyAt(pos, Along(rank, d.0, j), Along(file, d.1, j))
    requires OnBoard(Along(rank, d.0, k), Along(file, d.1, k))
    requires EnemyAt(pos, Square(Along(rank, d.0, k), Along(file, d.1, k)))
    requires !OwnAt(pos, Square(Along(rank, d.0, k), Along(file, d.1, k)))
    ensures Square(Along(rank, d.0, k), Along(file, d.1, k)) in Ray(pos, rank, file, d)
    ensures forall m :: k < m && OnBoard(Along(rank, d.0, m), Along(file, d.1, m)) ==>
              Square(Along(rank, d.0, m), Along(file, d.1, m)) !in Ray(pos, rank, file, d)
  {
    RayExactly(pos, rank, file, d, Square(Along(rank, d.0, k), Along(file, d.1, k)));
    assert Reached(pos, rank, file, d, k, Square(Along(rank, d.0, k), Along(file, d.1, k)));
    forall m | k < m && OnBoard(Along(rank, d.0, m), Along(file, d.1, m))
      ensures Square(Along(rank, d.0, m), Along(file, d.1, m)) !in Ray(pos, rank, file, d)
    {
      var t := Square(Along(rank, d.0, m), Along(file, d.1, m));
      RayExactly(pos, rank, file, d, t);
      if t in Ray(pos, rank, file, d) {
        var n :| Reached(pos, rank, file, d, n, t);
        SquareInjective(Along(rank, d.0, m), Along(file, d.1, m), Along(rank, d.0, n), Along(file, d.1, n));
      }
    }
  }

  /** A square is in the sliding moves exactly when it is on one of the rays. */
  lemma {:induction false} SlidingIsUnionOfRays(pos: Position, rank: int, file: int, ds: seq<(int, int)>, t: int)
    requires pos.Valid() && AllDirections(ds)
    ensures t in Sliding(pos, rank, file, ds) <==> exists i :: 0 <= i < |ds| && t in Ray(pos, rank, file, ds[i])
  {
    if ds != [] {
      var n := |ds| - 1;
      SlidingIsUnionOfRays(pos, rank, file, ds[..n], t);
      if t in Sliding(pos, rank, file, ds[..n]) {
        var i :| 0 <= i < n && t in Ray(pos, rank, file, ds[..n][i]);
        assert ds[..n][i] == ds[i];
      }
      if i :| 0 <= i < |ds| && t in Ray(pos, rank, file, ds[i]) {
        if i < n {
          assert ds[..n][i] == ds[i];
        }
      }
    }
  }

  /** A ray stays on the board, never contains a square of the side to
      move, and never contains an on-board origin. */
  lemma RayStaysOffOwn(pos: Position, rank: int, file: int, d: (int, int), t: int)
    requires pos.Valid() && IsDirection(d)
    requires t in Ray(pos, rank, file, d)
    ensures InRange(t) && !OwnAt(pos, t)
    ensures OnBoard(rank, file) ==> t != Square(rank, file)
  {
    RayExactly(pos, rank, file, d, t);
    var k :| Reached(pos, rank, file, d, k, t);
    if OnBoard(rank, file) {
      SquareInjective(rank, file, Along(rank, d.0, k), Along(file, d.1, k));
    }
  }

  /** `sliding_moves` never yields a square off the board or a square of the
      side to move, and never yields an on-board origin. */
  lemma SlidingStaysOffOwn(pos: Position, rank: int, file: int, ds: seq<(int, int)>)
    requires pos.Valid() && AllDirections(ds)
    ensures forall t :: t in Sliding(pos, rank, file, ds) ==>
              InRange(t) && !OwnAt(pos, t) && (OnBoard(rank, file) ==> t != Square(rank, file))
  {
    forall t | t in Sliding(pos, rank, file, ds)
      ensures InRange(t) && !OwnAt(pos, t) && (OnBoard(rank, file) ==> t != Square(rank, file))
    {
      SlidingIsUnionOfRays(pos, rank, file, ds, t);
      var i :| 0 <= i < |ds| && t in Ray(pos, rank, file, ds[i]);
      RayStaysOffOwn(pos, rank, file, ds[i], t);
    }
  }

  /** The other squares of the rank and of the file through (rank, file). */
  function RankAndFile(rank: int, file: int): set<int>
  {
    (set f | 0 <= f < 8 && f != file :: Square(rank, f)) +
    (set r | 0 <= r < 8 && r != rank :: Square(r, file))
  }

  /** Neither colour's occupancy word holds any square other than `o`, the
      square the moving piece stands on. */
  ghost predicate BoardEmptyBut(pos: Position, o: int)
    requires pos.Valid()
  {
    forall t :: InRange(t) && t != o ==> !pos.occupied[1].IsBitSet(t) && !pos.occupied[2].IsBitSet(t)
  }

  /** The board squares 1, 2, ... steps along direction `d` from (rank, file). */
  function Line(rank: int, file: int, d: (int, int)): set<int>
  {
    set k | 1 <= k < 8 && OnBoard(Along(rank, d.0, k), Along(file, d.1, k)) ::
      Square(Along(rank, d.0, k), Along(file, d.1, k))
  }

  /** No square of a line is its own origin. */
  lemma OriginOffLine(rank: int, file: int, d: (int, int))
    requires IsDirection(d) && OnBoard(rank, file)
    ensures Square(rank, file) !in Line(rank, file, d)
  {
    if Square(rank, file) in Line(rank, file, d) {
      var k :| 1 <= k < 8 && OnBoard(Along(rank, d.0, k), Along(file, d.1, k)) &&
               Square(rank, file) == Square(Along(rank, d.0, k), Along(file, d.1, k));
      SquareInjective(rank, file, Along(rank, d.0, k), Along(file, d.1, k));
      assert false;
    }
  }

  /** A line from (rank, file) is its first square followed by the line from
      that square. */
  lemma LineStep(rank: int, file: int, d: (int, int))
    requires IsDirection(d) && OnBoard(rank, file) && OnBoard(rank + d.0, file + d.1)
    ensures Line(rank, file, d) == {Square(rank + d.0, file + d.1)} + Line(rank + d.0, file + d.1, d)
  {
    var r, f := rank + d.0, file + d.1;
    assert r == Along(rank, d.0, 1) && f == Along(file, d.1, 1);
    forall t | t in Line(r, f, d)
      ensures t in Line(rank, file, d)
    {
      var k :| 1 <= k < 8 && OnBoard(Along(r, d.0, k), Along(f, d.1, k)) &&
               t == Square(Along(r, d.0, k), Along(f, d.1, k));
      assert Along(r, d.0, k) == Along(rank, d.0, k + 1);
      assert Along(f, d.1, k) == Along(file, d.1, k + 1);
      assert k + 1 < 8;
    }
    forall t | t in Line(rank, file, d)
      ensures t in {Square(r, f)} + Line(r, f, d)
    {
      var k :| 1 <= k < 8 && OnBoard(Along(rank, d.0, k), Along(file, d.1, k)) &&
               t == Square(Along(rank, d.0, k), Along(file, d.1, k));
      if k > 1 {
        assert Along(rank, d.0, k) == Along(r, d.0, k - 1);
        assert Along(file, d.1, k) == Along(f, d.1, k - 1);
      }
    }
  }

  /** On a board empty but for `o`, which is off the line, a ray runs on to
      the edge. */
  lemma {:induction false} RayOnEmptyBoard(pos: Position, rank: int, file: int, d: (int, int), o: int)
    requires pos.Valid() && BoardEmptyBut(pos, o) && IsDirection(d) && OnBoard(rank, file)
    requires o !in Line(rank, file, d)
    ensures Ray(pos, rank, file, d) == Line(rank, file, d)
    decreases RayMeasure(rank, file, d)
  {
    var r, f := rank + d.0, file + d.1;
    if OnBoard(r, f) {
      var t := Square(r, f);
      LineStep(rank, file, d);
      SquareInjective(r, f, r, f);
      assert t != o;
      var side, other := pos.sideToMove.Index(), pos.sideToMove.Opposite().Index();
      assert (side == 1 && other == 2) || (side == 2 && other == 1);
      assert !OwnAt(pos, t) && !EnemyAt(pos, t);
      RayStep(pos, rank, file, d);
      RayOnEmptyBoard(pos, r, f, d, o);
    } else {
      assert r == Along(rank, d.0, 1) && f == Along(file, d.1, 1);
      forall k | 1 <= k < 8
        ensures !OnBoard(Along(rank, d.0, k), Along(file, d.1, k))
      {
      }
    }
  }

  /** The four rook lines from an on-board square, together. */
  function RookLineSquares(rank: int, file: int): set<int>
  {
    Line(rank, file, (1, 0)) + Line(rank, file, (-1, 0)) + Line(rank, file, (0, 1)) + Line(rank, file, (0, -1))
  }

  /** A square of the rank or file lies on one of the four rook lines. */
  lemma RankAndFileOnLines(rank: int, file: int, t: int)
    requires OnBoard(rank, file) && t in RankAndFile(rank, file)
    ensures t in RookLineSquares(rank, file)
  {
    if f :| 0 <= f < 8 && f != file && t == Square(rank, f) {
      if f > file {
        assert t == Square(Along(rank, 0, f - file), Along(file, 1, f - file));
      } else {
        assert t == Square(Along(rank, 0, file - f), Along(file, -1, file - f));
      }
    } else {
      var r :| 0 <= r < 8 && r != rank && t == Square(r, file);
      if r > rank {
        assert t == Square(Along(rank, 1, r - rank), Along(file, 0, r - rank));
      } else {
        assert t == Square(Along(rank, -1, rank - r), Along(file, 0, rank - r));
      }
    }
  }

  /** A square on one of the four rook lines lies on the rank or file. */
  lemma LinesOnRankAndFile(rank: int, file: int, t: int)
    requires OnBoard(rank, file) && t in RookLineSquares(rank, file)
    ensures t in RankAndFile(rank, file)
  {
    var d :| d in {(1, 0), (-1, 0), (0, 1), (0, -1)} && t in Line(rank, file, d);
    var k :| 1 <= k < 8 && OnBoard(Along(rank, d.0, k), Along(file, d.1, k)) &&
             t == Square(Along(rank, d.0, k), Along(file, d.1, k));
    if d.0 == 0 {
      assert t == Square(rank, Along(file, d.1, k));
    } else {
      assert t == Square(Along(rank, d.0, k), file);
    }
  }

  /** The four rook lines from an on-board square cover its rank and file. */
  lemma RookLines(rank: int, file: int)
    requires OnBoard(rank, file)
    ensures RookLineSquares(rank, file) == RankAndFile(rank, file)
  {
    forall t | t in RankAndFile(rank, file)
      ensures t in RookLineSquares(rank, file)
    {
      RankAndFileOnLines(rank, file, t);
    }
    forall t | t in RookLineSquares(rank, file)
      ensures t in RankAndFile(rank, file)
    {
      LinesOnRankAndFile(rank, file, t);
    }
  }

  /** The moves along four directions are the union of the four rays. */
  lemma SlidingFour(pos: Position, rank: int, file: int, ds: seq<(int, int)>)
    requires pos.Valid() && AllDirections(ds) && |ds| == 4
    ensures Sliding(pos, rank, file, ds) ==
              Ray(pos, rank, file, ds[0]) + Ray(pos, rank, file, ds[1]) +
              Ray(pos, rank, file, ds[2]) + Ray(pos, rank, file, ds[3])
  {
    var d3, d2, d1 := ds[..3], ds[..2], ds[..1];
    assert d3[..2] == d2 && d2[..1] == d1 && d1[..0] == [];
    assert Sliding(pos, rank, file, d1) == Ray(pos, rank, file, ds[0]);
    assert Sliding(pos, rank, file, d2) == Sliding(pos, rank, file, d1) + Ray(pos, rank, file, ds[1]);
    assert Sliding(pos, rank, file, d3) == Sliding(pos, rank, file, d2) + Ray(pos, rank, file, ds[2]);
    assert ds[..|ds| - 1] == d3;
  }

  /** On a board where nothing but the rook itself stands, a rook reaches
      exactly the other 14 squares of its rank and its file. */
  lemma RookOnEmptyBoard(pos: Position, rank: int, file: int)
    requires pos.Valid() && OnBoard(rank, file) && BoardEmptyBut(pos, Square(rank, file))
    ensures RookTargets(pos, rank, file) == RankAndFile(rank, file)
  {
    var o := Square(rank, file);
    SlidingFour(pos, rank, file, RookDirections);
    OriginOffLine(rank, file, (1, 0));
    OriginOffLine(rank, file, (-1, 0));
    OriginOffLine(rank, file, (0, 1));
    OriginOffLine(rank, file, (0, -1));
    RayOnEmptyBoard(pos, rank, file, (1, 0), o);
    RayOnEmptyBoard(pos, rank, file, (-1, 0), o);
    RayOnEmptyBoard(pos, rank, file, (0, 1), o);
    RayOnEmptyBoard(pos, rank, file, (0, -1), o);
    RookLines(rank, file);
  }
}
