/** A position in the maze: column `x`, row `y`. The source declares it as a record, so two
    coordinates are the same value exactly when both components agree. */
module Coordinates {

  datatype Coordinate = Coordinate(x: int, y: int)

  /** Record equality: equal iff both components are equal; a match on one axis only is not
      enough. */
  lemma CoordinateEquality(x1: int, y1: int, x2: int, y2: int)
    ensures Coordinate(x1, y1) == Coordinate(x2, y2) <==> x1 == x2 && y1 == y2
  {
  }

  /** The four pairs of the source's parameterised equality test. */
  lemma CoordinateEqualityFixtures()
    ensures Coordinate(1, 1) != Coordinate(3, 3)
    ensures Coordinate(1, 5) == Coordinate(1, 5)
    ensures Coordinate(8, 4) != Coordinate(8, 9)
    ensures Coordinate(1, 7) != Coordinate(5, 7)
  {
  }
}
