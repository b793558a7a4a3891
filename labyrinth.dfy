/** The maze: a rectangular array of squares, read row by row from lines of text, with the
    queries the route search makes of it. Rows are indexed by `y` and columns by `x`, so the
    square at `Coordinate(x, y)` is `cells[y][x]`. */
module Labyrinth {
  import opened Results
  import opened Coordinates
  import opened Directions
  import opened Elements

  /** The squares of a maze as a value, row by row. */
  type Grid = seq<seq<Element>>

  /** The kind of square a character of the map text stands for: space, `P`, `F` and `*` have
      their own kinds, and every other character is a wall. */
  function ElementOfChar(ch: char): (e: Element)
    ensures ch in e.Representation() || (e == Obstacle && forall k: Element :: ch !in k.Representation())
  {
    if ch == ' ' then Void
    else if ch == 'P' then Player
    else if ch == 'F' then End
    else if ch == '*' then Travelled
    else Obstacle
  }

  /** The character table of the parser, read in both directions. */
  lemma ElementOfCharCases(ch: char)
    ensures ElementOfChar(ch) == Void <==> ch == ' '
    ensures ElementOfChar(ch) == Player <==> ch == 'P'
    ensures ElementOfChar(ch) == End <==> ch == 'F'
    ensures ElementOfChar(ch) == Travelled <==> ch == '*'
    ensures ElementOfChar(ch) == Obstacle <==> ch !in {' ', 'P', 'F', '*'}
  {
  }

  /** Parsing any character that draws a kind gives back that kind. */
  lemma RepresentationRoundTrip(e: Element, ch: char)
    requires ch in e.Representation()
    ensures ElementOfChar(ch) == e
  {
  }

  predicate Rectangular(g: Grid)
  {
    forall i :: 0 <= i < |g| ==> |g[i]| == |g[0]|
  }

  /** The map built from its lines of text: as many rows as lines and as many columns as the
      first line has characters; characters past that width are ignored. No lines at all, or a
      line shorter than the first, is a `MapException`. */
  function ParseMap(lines: seq<string>): (r: Result<Grid>)
    ensures r.Ok? <==> |lines| > 0 && forall i :: 0 <= i < |lines| ==> |lines[0]| <= |lines[i]|
    ensures r.Ok? ==> |r.value| == |lines| && Rectangular(r.value) && |r.value[0]| == |lines[0]|
    ensures r.Ok? ==> forall i, j :: 0 <= i < |lines| && 0 <= j < |lines[0]| ==>
      r.value[i][j] == ElementOfChar(lines[i][j])
    ensures r.Err? ==> r.error == MapException
  {
    if |lines| == 0 then Err(MapException)
    else
      var columns := |lines[0]|;
      if exists i :: 0 <= i < |lines| && |lines[i]| < columns then Err(MapException)
      else
        Ok(seq(|lines|, i requires 0 <= i < |lines| =>
          seq(columns, j requires 0 <= j < columns => ElementOfChar(lines[i][j]))))
  }

  predicate InBounds(g: Grid, c: Coordinate)
  {
    0 <= c.y < |g| && 0 <= c.x < |g[c.y]|
  }

  /** The square at `c`: row `c.y`, column `c.x`. */
  function At(g: Grid, c: Coordinate): Element
    requires InBounds(g, c)
  {
    g[c.y][c.x]
  }

  /** Row-major order: `a` is scanned before `b`. */
  predicate Before(a: Coordinate, b: Coordinate)
  {
    a.y < b.y || (a.y == b.y && a.x < b.x)
  }

  /** The first column at or after `x` holding `e`. */
  function FindInRow(row: seq<Element>, e: Element, x: nat): (r: Option<nat>)
    requires x <= |row|
    decreases |row| - x
    ensures r.Some? ==> x <= r.value < |row| && row[r.value] == e
    ensures r.Some? ==> forall j :: x <= j < r.value ==> row[j] != e
    ensures r.None? ==> forall j :: x <= j < |row| ==> row[j] != e
  {
    if x == |row| then None
    else if row[x] == e then Some(x)
    else FindInRow(row, e, x + 1)
  }

  /** The first square holding `e`, in row-major order, among the rows from `y` on. */
  function FindFrom(g: Grid, e: Element, y: nat): (r: Option<Coordinate>)
    requires y <= |g|
    decreases |g| - y
    ensures r.Some? ==> y <= r.value.y && InBounds(g, r.value) && At(g, r.value) == e
  {
    if y == |g| then None
    else
      match FindInRow(g[y], e, 0)
      case Some(x) => Some(Coordinate(x, y))
      case None => FindFrom(g, e, y + 1)
  }

  /** No square scanned before the one found, from row `y` on, holds `e`; when nothing is
      found, no square from row `y` on holds it. */
  lemma {:induction false} FindFromFirst(g: Grid, e: Element, y: nat)
    requires y <= |g|
    decreases |g| - y
    ensures FindFrom(g, e, y).Some? ==>
      forall c :: InBounds(g, c) && y <= c.y && Before(c, FindFrom(g, e, y).value) ==> At(g, c) != e
    ensures FindFrom(g, e, y).None? ==> forall c :: InBounds(g, c) && y <= c.y ==> At(g, c) != e
  {
    if y < |g| && FindInRow(g[y], e, 0).None? {
      FindFromFirst(g, e, y + 1);
    }
  }

  /** Where the player or the end is: the first match of a row-major scan. Asking for any other
      kind, or for a kind the map does not hold, is a `MapException`. */
  function Locate(g: Grid, e: Element): (r: Result<Coordinate>)
    ensures r.Ok? ==> InBounds(g, r.value) && At(g, r.value) == e
    ensures r.Err? ==> r.error == MapException
  {
    if e != End && e != Player then Err(MapException)
    else
      match FindFrom(g, e, 0)
      case Some(c) => Ok(c)
      case None => Err(MapException)
  }

  /** The player or the end is found exactly when the map holds it, and what is found is its
      first square in row-major order. */
  lemma LocateFindsFirst(g: Grid, e: Element)
    ensures Locate(g, e).Ok? <==> (e == Player || e == End) && exists c :: InBounds(g, c) && At(g, c) == e
    ensures Locate(g, e).Ok? ==> forall c :: InBounds(g, c) && Before(c, Locate(g, e).value) ==> At(g, c) != e
  {
    FindFromFirst(g, e, 0);
  }

  /** All eight neighbours of `c` lie inside the map. */
  predicate Surrounded(g: Grid, c: Coordinate)
  {
    forall d: MovementDirection :: InBounds(g, Neighbour(c, d))
  }

  /** What lies around `c`, direction by direction; reading past the edge of the map is an
      `OutOfBounds` failure. */
  function SurroundingElements(g: Grid, c: Coordinate): (r: Result<map<MovementDirection, Element>>)
    ensures r.Ok? <==> Surrounded(g, c)
    ensures r.Ok? ==> forall d: MovementDirection ::
      d in r.value && InBounds(g, Neighbour(c, d)) && r.value[d] == At(g, Neighbour(c, d))
    ensures r.Err? ==> r.error == OutOfBounds
  {
    if Surrounded(g, c) then
      EightDirections();
      Ok(map d | d in ScanOrder :: At(g, Neighbour(c, d)))
    else Err(OutOfBounds)
  }

  /** The neighbour query answers with exactly eight entries. */
  lemma SurroundingHasEightEntries(g: Grid, c: Coordinate)
    requires Surrounded(g, c)
    ensures |SurroundingElements(g, c).value| == 8
  {
    var m := SurroundingElements(g, c).value;
    EightDirections();
    assert m.Keys == set d | d in ScanOrder;
  }

  /** In a rectangular map the neighbour query succeeds exactly on squares strictly inside
      the outer ring. */
  lemma SurroundedIffStrictlyInside(g: Grid, c: Coordinate)
    requires |g| > 0 && Rectangular(g)
    ensures Surrounded(g, c) <==> 1 <= c.x <= |g[0]| - 2 && 1 <= c.y <= |g| - 2
  {
    if Surrounded(g, c) {
      assert InBounds(g, Neighbour(c, DownLeft));
      assert InBounds(g, Neighbour(c, UpRight));
    }
  }

  /** The maze is a rectangle whose outer ring is all wall. */
  predicate Bordered(g: Grid)
  {
    && |g| > 0
    && Rectangular(g)
    && forall y, x :: 0 <= y < |g| && 0 <= x < |g[y]| && (y == 0 || y == |g| - 1 || x == 0 || x == |g[y]| - 1)
         ==> g[y][x] == Obstacle
  }

  /** In a bordered maze every open square is strictly inside the ring, so looking around it
      never reads past the edge. */
  lemma OpenSquaresAreSurrounded(g: Grid, c: Coordinate)
    requires Bordered(g) && InBounds(g, c) && At(g, c) != Obstacle
    ensures Surrounded(g, c)
  {
    SurroundedIffStrictlyInside(g, c);
  }

  /** A map loaded from text. The array is filled once, when the map is loaded, and only read
      afterwards; `cells` is its content as a value. */
  class LabyrinthMap {
    const mapArray: array2<Element>
    ghost const cells: Grid

    /** The array holds `cells`, row by row. */
    ghost predicate Valid()
      reads mapArray
    {
      && |cells| == mapArray.Length0
      && (forall i :: 0 <= i < |cells| ==> |cells[i]| == mapArray.Length1)
      && (forall i, j :: 0 <= i < mapArray.Length0 && 0 <= j < mapArray.Length1 ==> cells[i][j] == mapArray[i, j])
    }

    constructor (mapArray: array2<Element>, ghost cells: Grid)
      requires |cells| == mapArray.Length0
      requires forall i :: 0 <= i < |cells| ==> |cells[i]| == mapArray.Length1
      requires forall i, j :: 0 <= i < mapArray.Length0 && 0 <= j < mapArray.Length1 ==> cells[i][j] == mapArray[i, j]
      ensures this.mapArray == mapArray && this.cells == cells && Valid()
    {
      this.mapArray := mapArray;
      this.cells := cells;
    }

    /** Builds the map from its lines of text, filling the array row by row. */
    static method Load(lines: seq<string>) returns (r: Result<LabyrinthMap>)
      ensures r.Ok? <==> ParseMap(lines).Ok?
      ensures r.Ok? ==> fresh(r.value) && fresh(r.value.mapArray)
      ensures r.Ok? ==> r.value.Valid() && r.value.cells == ParseMap(lines).value
      ensures r.Err? ==> r.error == MapException
    {
      if |lines| == 0 {
        return Err(MapException);
      }
      var rows, columns := |lines|, |lines[0]|;
      var cells := new Element[rows, columns];
      for i := 0 to rows
        invariant forall i' :: 0 <= i' < i ==> columns <= |lines[i']|
        invariant forall i', j :: 0 <= i' < i && 0 <= j < columns ==> cells[i', j] == ElementOfChar(lines[i'][j])
      {
        if |lines[i]| < columns {
          return Err(MapException);
        }
        for j := 0 to columns
          invariant forall i', j' :: 0 <= i' < i && 0 <= j' < columns ==> cells[i', j'] == ElementOfChar(lines[i'][j'])
          invariant forall j' :: 0 <= j' < j ==> cells[i, j'] == ElementOfChar(lines[i][j'])
        {
          cells[i, j] := ElementOfChar(lines[i][j]);
        }
      }
      var m := new LabyrinthMap(cells, ParseMap(lines).value);
      return Ok(m);
    }

    /** The square at `c`, row first; a coordinate outside the array is `OutOfBounds`. */
    function GetElementAtCoordinate(c: Coordinate): (r: Result<Element>)
      reads mapArray
      requires Valid()
      ensures r.Ok? <==> InBounds(cells, c)
      ensures r.Ok? ==> r.value == At(cells, c)
    {
      if 0 <= c.y < mapArray.Length0 && 0 <= c.x < mapArray.Length1 then Ok(mapArray[c.y, c.x])
      else Err(OutOfBounds)
    }

    /** Row-major search for the player or the end, returning at the first match. */
    method GetElementCoordinates(e: Element) returns (r: Result<Coordinate>)
      requires Valid()
      ensures r == Locate(cells, e)
    {
      if e != End && e != Player {
        return Err(MapException);
      }
      ghost var g := cells;
      for i := 0 to mapArray.Length0
        invariant forall c :: InBounds(g, c) && c.y < i ==> At(g, c) != e
      {
        for j := 0 to mapArray.Length1
          invariant forall c :: InBounds(g, c) && (c.y < i || (c.y == i && c.x < j)) ==> At(g, c) != e
        {
          if mapArray[i, j] == e {
            var found := Coordinate(j, i);
            assert InBounds(g, found) && At(g, found) == e;
            LocateFindsFirst(g, e);
            return Ok(found);
          }
        }
      }
      LocateFindsFirst(g, e);
      return Err(MapException);
    }

    /** Looks around `c` in the scan order `ScanOrder`, recording what lies in each
        direction. */
    method GetSurroundingElements(c: Coordinate) returns (r: Result<map<MovementDirection, Element>>)
      requires Valid()
      ensures r == SurroundingElements(cells, c)
    {
      ghost var g := cells;
      var surrounding: map<MovementDirection, Element> := map[];
      for k := 0 to |ScanOrder|
        invariant forall d :: d in ScanOrder[..k] ==> InBounds(g, Neighbour(c, d))
        invariant surrounding == map d | d in ScanOrder[..k] :: At(g, Neighbour(c, d))
      {
        var d := ScanOrder[k];
        var e := GetElementAtCoordinate(Neighbour(c, d));
        if e.Err? {
          assert !Surrounded(g, c);
          return Err(e.error);
        }
        assert ScanOrder[..k + 1] == ScanOrder[..k] + [d];
        surrounding := surrounding[d := e.value];
      }
      EightDirections();
      assert ScanOrder[..|ScanOrder|] == ScanOrder;
      return Ok(surrounding);
    }
  }
}
