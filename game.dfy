/** The game: a map, the route being built on it and the player's pace along it. Every method
    changes the fields the way the corresponding function of `Routing` or `Timing` describes. */
module Games {
  import opened Results
  import opened Coordinates
  import opened Directions
  import opened Elements
  import opened Labyrinth
  import opened Routing
  import opened Timing

  /** The outcome `o` and the state `s` left by a method are those the specification `r`
      gives: on success the state it computes, on failure the same error. */
  predicate Agrees(o: Outcome, s: RouteState, r: Result<RouteState>)
  {
    && (r.Ok? ==> o == Pass && s == r.value)
    && (r.Err? ==> o == Fail(r.error))
  }

  /** A sequence holding two different values has at least two entries. */
  lemma TwoEntries(xs: seq<Coordinate>, a: Coordinate, b: Coordinate)
    requires a in xs && b in xs && a != b
    ensures |xs| >= 2
  {
  }

  class Game {
    const labyrinthMap: LabyrinthMap
    /** The squares of the game's map, as a value. */
    ghost const squares: Grid
    var route: seq<Coordinate>
    var recognition: seq<Coordinate>
    var intersections: map<Coordinate, seq<Coordinate>>
    var playerCoordinate: Coordinate
    var timeSpentPerSquare: int
    var movementsAfterATurn: int

    /** A game on `labyrinthMap` that has not searched yet. */
    constructor (labyrinthMap: LabyrinthMap)
      requires labyrinthMap.Valid()
      ensures this.labyrinthMap == labyrinthMap && Valid()
      ensures State() == Unsearched
      ensures timeSpentPerSquare == 0
    {
      this.labyrinthMap := labyrinthMap;
      squares := labyrinthMap.cells;
      route := [];
      recognition := [];
      intersections := map[];
      playerCoordinate := Coordinate(0, 0);
      timeSpentPerSquare := 0;
      movementsAfterATurn := 0;
    }

    /** The search fields as a value. */
    function State(): RouteState
      reads this
    {
      RouteState(route, recognition, intersections, playerCoordinate)
    }

    /** The map's array holds `squares`: the map is only read once it is loaded. */
    ghost predicate Valid()
      reads labyrinthMap.mapArray
    {
      labyrinthMap.Valid() && squares == labyrinthMap.cells
    }

    /** The open, unexplored squares around the player, in scan order. */
    method GetPossibleCoordinatesToGo() returns (r: Result<seq<Coordinate>>)
      requires Valid()
      ensures r == PossibleCoordinatesToGo(squares, playerCoordinate, recognition)
    {
      var surroundingElements :- labyrinthMap.GetSurroundingElements(playerCoordinate);
      EightDirections();
      return Ok(Candidates(ScanOrder, surroundingElements, playerCoordinate, recognition));
    }

    /** Scans the route backwards from the square before the player's for a recorded
        intersection, updates the intersections and the route as `Backtrack` does, and returns
        the intersection; the player's field is left to the caller. */
    method MoveToLastIntersection() returns (r: Result<Coordinate>)
      requires Valid()
      modifies this
      ensures Backtrack(old(State()), SourceScanFloor).Ok? ==>
        && r == Ok(Backtrack(old(State()), SourceScanFloor).value.playerCoordinate)
        && route == Backtrack(old(State()), SourceScanFloor).value.route
        && intersections == Backtrack(old(State()), SourceScanFloor).value.intersections
      ensures Backtrack(old(State()), SourceScanFloor).Err? ==>
        r == Err(GameException) && route == old(route) && intersections == old(intersections)
      ensures recognition == old(recognition) && playerCoordinate == old(playerCoordinate)
      ensures timeSpentPerSquare == old(timeSpentPerSquare) && movementsAfterATurn == old(movementsAfterATurn)
    {
      ghost var s := State();
      var routeSize := |route|;
      var i := routeSize - 2;
      while i > 0 && route[i] !in intersections
        invariant i <= routeSize - 2
        invariant LastIntersection(route, intersections, routeSize - 2, SourceScanFloor) == LastIntersection(route, intersections, i, SourceScanFloor)
        decreases i
      {
        i := i - 1;
      }
      if i <= 0 {
        return Err(GameException);
      }
      BacktrackFrom(s, i, SourceScanFloor);
      var lastIntersection := route[i];
      var deadEnd := route[i + 1];
      var possibleWaysFromLastIntersection := RemoveFirst(intersections[lastIntersection], deadEnd);
      intersections := intersections[lastIntersection := possibleWaysFromLastIntersection];
      var deadEndWay := route[i + 1..];
      route := RemoveAll(route, deadEndWay);
      return Ok(lastIntersection);
    }

    /** One move of the search, as `Advance` describes it, with the end looked up on the map:
        onto the end when it is among the candidates, otherwise `StepForward` when there is a
        candidate and `Retreat` from a dead end. */
    method MoveEfficiently() returns (o: Outcome)
      requires Valid()
      modifies this
      decreases |route|, 1
      ensures Locate(squares, End).Ok? ==>
        Agrees(o, State(), Advance(squares, Locate(squares, End).value, old(State()), SourceScanFloor))
      ensures Locate(squares, End).Err? ==> o.Fail?
      ensures timeSpentPerSquare == old(timeSpentPerSquare) && movementsAfterATurn == old(movementsAfterATurn)
    {
      var possible := GetPossibleCoordinatesToGo();
      if possible.Err? {
        return Fail(possible.error);
      }
      var coordinatesToGo := possible.value;
      var end := labyrinthMap.GetElementCoordinates(End);
      if end.Err? {
        return Fail(end.error);
      }
      if end.value in coordinatesToGo {
        AdvanceReachesEnd(squares, end.value, State(), coordinatesToGo, SourceScanFloor);
        route := route + [end.value];
        return Pass;
      }
      if |coordinatesToGo| > 0 {
        AdvanceStepsForward(squares, end.value, State(), coordinatesToGo, SourceScanFloor);
        StepForward(coordinatesToGo, end.value);
        return Pass;
      }
      o := Retreat(end.value);
    }

    /** The move when the end is not next to the player but other squares are: record the
        player's square if it is a new intersection, then step onto the candidate closest to
        the end. */
    method StepForward(coordinatesToGo: seq<Coordinate>, end: Coordinate)
      requires |coordinatesToGo| > 0
      modifies this
      ensures State() == StepTo(NoteIntersection(old(State()), coordinatesToGo), OptimalWay(coordinatesToGo, end))
      ensures timeSpentPerSquare == old(timeSpentPerSquare) && movementsAfterATurn == old(movementsAfterATurn)
    {
      if |coordinatesToGo| > 1 && playerCoordinate !in intersections {
        intersections := intersections[playerCoordinate := coordinatesToGo];
      }
      var next := OptimalWay(coordinatesToGo, end);
      playerCoordinate, route, recognition := next, route + [next], recognition + [next];
    }

    /** A dead end: go back to the last intersection and move again from there; with no
        intersection to go back to the search gives up. */
    method Retreat(end: Coordinate) returns (o: Outcome)
      requires Valid()
      requires Locate(squares, End) == Ok(end)
      requires PossibleCoordinatesToGo(squares, playerCoordinate, recognition) == Ok([])
      modifies this
      decreases |route|, 0
      ensures Agrees(o, State(), Advance(squares, end, old(State()), SourceScanFloor))
      ensures timeSpentPerSquare == old(timeSpentPerSquare) && movementsAfterATurn == old(movementsAfterATurn)
    {
      AdvanceBacktracks(squares, end, State(), SourceScanFloor);
      var lastIntersection := MoveToLastIntersection();
      if lastIntersection.Err? {
        return Fail(lastIntersection.error);
      }
      playerCoordinate := lastIntersection.value;
      assert State() == Backtrack(old(State()), SourceScanFloor).value;
      o := MoveEfficiently();
    }

    /** Locates the player and the end, starts the route and the explored squares at the player,
        clears the intersections and moves until the route reaches the end: the state it
        leaves is the one `CalculatedRoute` computes. */
    method CalculateRoute() returns (o: Outcome)
      requires Valid()
      modifies this
      ensures Agrees(o, State(), CalculatedRoute(squares, old(State()), SourceScanFloor))
    {
      ghost var g := squares;
      ghost var s0 := State();
      var start := labyrinthMap.GetElementCoordinates(Player);
      if start.Err? {
        return Fail(start.error);
      }
      playerCoordinate := start.value;
      var end := labyrinthMap.GetElementCoordinates(End);
      if end.Err? {
        return Fail(end.error);
      }
      intersections := map[];
      route := route + [playerCoordinate];
      recognition := recognition + [playerCoordinate];
      assert State() == RouteState(s0.route + [start.value], s0.recognition + [start.value], map[], start.value);
      o := MoveUntilEnd(end.value);
    }

    /** The search loop of `CalculateRoute`: moves until the route holds the end, or a move
        fails; the state it leaves is the one `Explore` computes. */
    method MoveUntilEnd(end: Coordinate) returns (o: Outcome)
      requires Valid()
      requires Locate(squares, End) == Ok(end)
      modifies this
      ensures Agrees(o, State(), Explore(squares, end, old(State()), SourceScanFloor))
    {
      while end !in route
        invariant Explore(squares, end, State(), SourceScanFloor) == Explore(squares, end, old(State()), SourceScanFloor)
        decreases Unexplored(squares, State()), if end in route then 0 else 1
      {
        ExploreStep(squares, end, State(), SourceScanFloor);
        var moved := MoveEfficiently();
        if moved.Fail? {
          return moved;
        }
      }
      return Pass;
    }

    /** The pace after stepping onto the square at `routePosition`, as `ModifyVelocity` gives
        it. */
    method ModifyVelocityIfGoesStraight(routePosition: int)
      requires Valid()
      requires 2 <= routePosition < |route|
      modifies this
      ensures State() == old(State())
      ensures Pace(timeSpentPerSquare, movementsAfterATurn) ==
        ModifyVelocity(old(Pace(timeSpentPerSquare, movementsAfterATurn)),
                       route[routePosition - 2], route[routePosition - 1], route[routePosition])
    {
      var first := route[routePosition - 2];
      var previous := route[routePosition - 1];
      var current := route[routePosition];
      if (first.x == previous.x && previous.x == current.x) || (first.y == previous.y && previous.y == current.y) {
        if movementsAfterATurn > 2 {
          timeSpentPerSquare := timeSpentPerSquare - (if timeSpentPerSquare > MaxVelocity then StraightAcceleration else 0);
        }
      } else {
        timeSpentPerSquare := InitialVelocity;
        movementsAfterATurn := 1;
      }
    }

    /** The time of the current route, once it is checked to hold the player's and the end's
        squares; the pace fields are left at the pace of the last square. */
    method GetTotalTimeSpent() returns (r: Result<int>)
      requires Valid()
      modifies this
      ensures r == TotalTimeSpent(squares, route)
      ensures r.Ok? && |route| >= 2 ==> Pace(timeSpentPerSquare, movementsAfterATurn) == Scan(route, |route|).pace
      ensures State() == old(State())
    {
      var start := labyrinthMap.GetElementCoordinates(Player);
      if start.Err? {
        return Err(start.error);
      }
      if start.value !in route {
        return Err(GameException);
      }
      var end := labyrinthMap.GetElementCoordinates(End);
      if end.Err? {
        return Err(end.error);
      }
      if end.value !in route {
        return Err(GameException);
      }
      TwoEntries(route, start.value, end.value);
      timeSpentPerSquare := InitialVelocity;
      var timeSpent := InitialVelocity * 2;
      movementsAfterATurn := 2;
      for i := 2 to |route|
        invariant State() == old(State())
        invariant Tally(Pace(timeSpentPerSquare, movementsAfterATurn), timeSpent) == Scan(route, i)
      {
        movementsAfterATurn := movementsAfterATurn + 1;
        ModifyVelocityIfGoesStraight(i);
        timeSpent := timeSpent + timeSpentPerSquare;
      }
      return Ok(timeSpent);
    }
  }
}
