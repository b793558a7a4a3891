/** The eight moves of the player: the four axis moves and the four diagonals, each with its
    fixed offset along x (columns) and y (rows). */
module Directions {
  import opened Coordinates

  datatype MovementDirection = Up | UpRight | UpLeft | Right | Left | Down | DownRight | DownLeft
  {
    /** Squares moved along the x axis. */
    function XMovement(): (dx: int)
      ensures -1 <= dx <= 1
    {
      match this
      case Up => 0
      case UpRight => 1
      case UpLeft => -1
      case Right => 1
      case Left => -1
      case Down => 0
      case DownRight => 1
      case DownLeft => -1
    }

    /** Squares moved along the y axis. */
    function YMovement(): (dy: int)
      ensures -1 <= dy <= 1
    {
      match this
      case Up => 1
      case UpRight => 1
      case UpLeft => 1
      case Right => 0
      case Left => 0
      case Down => -1
      case DownRight => -1
      case DownLeft => -1
    }

    /** The move that undoes this one. */
    function Opposite(): MovementDirection
    {
      match this
      case Up => Down
      case UpRight => DownLeft
      case UpLeft => DownRight
      case Right => Left
      case Left => Right
      case Down => Up
      case DownRight => UpLeft
      case DownLeft => UpRight
    }
  }

  /** The order in which the map lists the surroundings of a square; candidate moves are
      considered in this order. */
  const ScanOrder: seq<MovementDirection> :=
    [Up, UpLeft, UpRight, Right, Left, Down, DownLeft, DownRight]

  /** Two different squares that touch, along an axis or diagonally (the Moore neighbourhood). */
  predicate Adjacent(a: Coordinate, b: Coordinate)
  {
    a != b && -1 <= a.x - b.x <= 1 && -1 <= a.y - b.y <= 1
  }

  /** The square reached from `c` by moving in direction `d`. */
  function Neighbour(c: Coordinate, d: MovementDirection): (n: Coordinate)
    ensures Adjacent(c, n)
  {
    Coordinate(c.x + d.XMovement(), c.y + d.YMovement())
  }

  /** The direction that leads from `from` to an adjacent square `to`. */
  function DirectionTo(from: Coordinate, to: Coordinate): (d: MovementDirection)
    requires Adjacent(from, to)
    ensures Neighbour(from, d) == to
  {
    var dx, dy := to.x - from.x, to.y - from.y;
    if dx == 0 then (if dy == 1 then Up else Down)
    else if dx == 1 then (if dy == 1 then UpRight else if dy == 0 then Right else DownRight)
    else (if dy == 1 then UpLeft else if dy == 0 then Left else DownLeft)
  }

  /** There are exactly eight directions, all of them listed once in the scan order. */
  lemma EightDirections()
    ensures |ScanOrder| == 8
    ensures forall d: MovementDirection :: d in ScanOrder
    ensures forall i, j :: 0 <= i < j < |ScanOrder| ==> ScanOrder[i] != ScanOrder[j]
    ensures |set d | d in ScanOrder| == 8
  {
    forall d: MovementDirection
      ensures d in ScanOrder
    {
      match d
      case Up => assert ScanOrder[0] == d;
      case UpLeft => assert ScanOrder[1] == d;
      case UpRight => assert ScanOrder[2] == d;
      case Right => assert ScanOrder[3] == d;
      case Left => assert ScanOrder[4] == d;
      case Down => assert ScanOrder[5] == d;
      case DownLeft => assert ScanOrder[6] == d;
      case DownRight => assert ScanOrder[7] == d;
    }
    DistinctCount(ScanOrder);
  }

  /** A sequence without repetitions has as many distinct elements as entries. */
  lemma {:induction false} DistinctCount<T>(s: seq<T>)
    requires forall i, j :: 0 <= i < j < |s| ==> s[i] != s[j]
    ensures |set x | x in s| == |s|
  {
    if s != [] {
      DistinctCount(s[1..]);
      assert (set x | x in s) == (set x | x in s[1..]) + {s[0]};
    }
  }

  /** No direction stands still, and different directions have different offsets, so the
      eight neighbours of a square are eight different squares. */
  lemma OffsetsDistinct(c: Coordinate)
    ensures forall d: MovementDirection :: d.XMovement() != 0 || d.YMovement() != 0
    ensures forall d1: MovementDirection, d2: MovementDirection ::
      d1 != d2 ==> Neighbour(c, d1) != Neighbour(c, d2)
  {
  }

  /** The eight directions reach exactly the squares adjacent to `c`. */
  lemma NeighbourhoodCovered(c: Coordinate, n: Coordinate)
    ensures Adjacent(c, n) <==> exists d: MovementDirection :: Neighbour(c, d) == n
  {
    if Adjacent(c, n) {
      assert Neighbour(c, DirectionTo(c, n)) == n;
    }
  }

  /** Every direction has an opposite with the negated offset: Up/Down, Left/Right,
      UpRight/DownLeft and UpLeft/DownRight. */
  lemma OppositeNegates(d: MovementDirection, c: Coordinate)
    ensures d.Opposite().XMovement() == -d.XMovement()
    ensures d.Opposite().YMovement() == -d.YMovement()
    ensures d.Opposite().Opposite() == d
    ensures Neighbour(Neighbour(c, d), d.Opposite()) == c
  {
  }
}
