/** A maze in which the only square that offers a choice before a dead end is the player's own.
    The closest move from the player leads into the dead end; the way round the wall starts with
    the other moves from the player's square. The backwards scan for an intersection as the game
    runs it never looks at the start, so the search gives up on this maze although a route exists;
    a scan that also looks at the start finds the way round. */
module StartBranch {
  import opened Results
  import opened Coordinates
  import opened Directions
  import opened Elements
  import opened Labyrinth
  import opened Routing

  /** The maze as a map file's lines: the player at (4, 1), the end at (1, 1), a wall between
      them and a corridor along the bottom. */
  const MazeText: seq<string> := [
    "+-----+",
    "|F| P |",
    "| +-+ |",
    "|     |",
    "+-----+"]

  /** The maze as parsed, row by row. */
  const Maze: Grid := [
    [Obstacle, Obstacle, Obstacle, Obstacle, Obstacle, Obstacle, Obstacle],
    [Obstacle, End, Obstacle, Void, Player, Void, Obstacle],
    [Obstacle, Void, Obstacle, Obstacle, Obstacle, Void, Obstacle],
    [Obstacle, Void, Void, Void, Void, Void, Obstacle],
    [Obstacle, Obstacle, Obstacle, Obstacle, Obstacle, Obstacle, Obstacle]]

  /** The map file parses to the grid. */
  lemma MazeParses()
    ensures ParseMap(MazeText) == Ok(Maze)
  {
    assert forall i :: 0 <= i < |MazeText| ==> |MazeText[i]| == 7;
    var g := ParseMap(MazeText).value;
    forall i | 0 <= i < 5
      ensures g[i] == Maze[i]
    {
      forall j | 0 <= j < 7
        ensures g[i][j] == Maze[i][j]
      {
        assert g[i][j] == ElementOfChar(MazeText[i][j]);
      }
    }
    assert |g| == |Maze|;
    assert g == Maze;
  }

  /** The player and the end are where the text shows them. */
  lemma MazeLocations()
    ensures Locate(Maze, Player) == Ok(Coordinate(4, 1))
    ensures Locate(Maze, End) == Ok(Coordinate(1, 1))
  {
  }

  /** The square in direction `d` from `p`, when it is an open square not yet entered. */
  function Kept(p: Coordinate, recognition: seq<Coordinate>, d: MovementDirection): seq<Coordinate>
  {
    var n := Neighbour(p, d);
    if InBounds(Maze, n) && At(Maze, n) != Obstacle && n !in recognition then [n] else []
  }

  /** The kept squares in the directions of the scan order from position `k` on. */
  function KeptFrom(p: Coordinate, recognition: seq<Coordinate>, k: nat): seq<Coordinate>
    requires k <= |ScanOrder|
    decreases |ScanOrder| - k
  {
    if k == |ScanOrder| then [] else Kept(p, recognition, ScanOrder[k]) + KeptFrom(p, recognition, k + 1)
  }

  /** The source's candidate list, taken over the scan order from position `k` on, is the list of
      kept squares. */
  lemma {:induction false} CandidatesFrom(p: Coordinate, recognition: seq<Coordinate>,
                                          around: map<MovementDirection, Element>, k: nat)
    requires SurroundingElements(Maze, p) == Ok(around)
    requires k <= |ScanOrder|
    decreases |ScanOrder| - k
    ensures (EightDirections(); Candidates(ScanOrder[k..], around, p, recognition) == KeptFrom(p, recognition, k))
  {
    EightDirections();
    if k < |ScanOrder| {
      assert ScanOrder[k..][1..] == ScanOrder[k + 1..];
      CandidatesFrom(p, recognition, around, k + 1);
    }
  }

  /** The moves open from a square inside the maze's wall, direction by direction in scan
      order. */
  lemma MovesAt(p: Coordinate, recognition: seq<Coordinate>)
    requires 1 <= p.x <= 5 && 1 <= p.y <= 3
    ensures PossibleCoordinatesToGo(Maze, p, recognition) == Ok(KeptAround(p, recognition))
  {
    SurroundedIffStrictlyInside(Maze, p);
    var around := SurroundingElements(Maze, p).value;
    CandidatesFrom(p, recognition, around, 0);
    assert ScanOrder[0..] == ScanOrder;
    var r := recognition;
    assert ScanOrder[7] == DownRight && ScanOrder[6] == DownLeft && ScanOrder[5] == Down && ScanOrder[4] == Left;
    assert ScanOrder[3] == Right && ScanOrder[2] == UpRight && ScanOrder[1] == UpLeft && ScanOrder[0] == Up;
    assert KeptFrom(p, r, 7) == Kept(p, r, DownRight) + KeptFrom(p, r, 8);
    assert KeptFrom(p, r, 7) == Kept(p, r, DownRight);
    assert KeptFrom(p, r, 6) == Kept(p, r, DownLeft) + KeptFrom(p, r, 7);
    assert KeptFrom(p, r, 5) == Kept(p, r, Down) + KeptFrom(p, r, 6);
    assert KeptFrom(p, r, 4) == Kept(p, r, Left) + KeptFrom(p, r, 5);
    assert KeptFrom(p, r, 3) == Kept(p, r, Right) + KeptFrom(p, r, 4);
    assert KeptFrom(p, r, 2) == Kept(p, r, UpRight) + KeptFrom(p, r, 3);
    assert KeptFrom(p, r, 1) == Kept(p, r, UpLeft) + KeptFrom(p, r, 2);
    assert KeptFrom(p, r, 0) == Kept(p, r, Up) + KeptFrom(p, r, 1);
  }

  /** The kept squares around `p`, in scan order. */
  function KeptAround(p: Coordinate, recognition: seq<Coordinate>): seq<Coordinate>
  {
    Kept(p, recognition, Up) + (Kept(p, recognition, UpLeft) + (Kept(p, recognition, UpRight) +
    (Kept(p, recognition, Right) + (Kept(p, recognition, Left) + (Kept(p, recognition, Down) +
    (Kept(p, recognition, DownLeft) + Kept(p, recognition, DownRight)))))))
  }

  /** From `p`, inside the wall, the candidates are `coordinatesToGo`, none of them is the end,
      and `next` is strictly closer to the end than every other. */
  predicate Chooses(p: Coordinate, recognition: seq<Coordinate>, coordinatesToGo: seq<Coordinate>, next: Coordinate)
  {
    && 1 <= p.x <= 5 && 1 <= p.y <= 3
    && KeptAround(p, recognition) == coordinatesToGo
    && Finish !in coordinatesToGo && next in coordinatesToGo
    && (forall o :: o in coordinatesToGo && o != next ==>
          DirectDistanceToEnd(o, Finish) > DirectDistanceToEnd(next, Finish))
  }

  /** The search takes the move `Chooses` describes. */
  lemma StepsTo(s: RouteState, coordinatesToGo: seq<Coordinate>, next: Coordinate, floor: nat)
    requires Chooses(s.playerCoordinate, s.recognition, coordinatesToGo, next)
    ensures Advance(Maze, Finish, s, floor) == Ok(StepTo(NoteIntersection(s, coordinatesToGo), next))
  {
    MovesAt(s.playerCoordinate, s.recognition);
    OptimalWayIsFirstClosest(coordinatesToGo, Finish);
    AdvanceStepsForward(Maze, Finish, s, coordinatesToGo, floor);
  }

  /** A move that does not reach the end leaves the rest of the search to the new state. */
  lemma ExploreMoves(g: Grid, end: Coordinate, s: RouteState, s': RouteState, floor: nat)
    requires end !in s.route && Advance(g, end, s, floor) == Ok(s')
    ensures Explore(g, end, s, floor) == Explore(g, end, s', floor)
  {
    ExploreStep(g, end, s, floor);
  }

  const Start := Coordinate(4, 1)
  const Finish := Coordinate(1, 1)

  /** A route around the wall, from the player down to row 3, along it and up to the end. */
  const Detour := [Start, Coordinate(5, 2), Coordinate(4, 3), Coordinate(3, 3), Coordinate(2, 3),
    Coordinate(1, 2), Finish]

  // ---------------------------------------------------------------- the search, move by move

  /* The states the search passes through: it starts at the player's square, takes the closest
     move into the dead end at (3, 1), and, when it can backtrack to the start, goes round the
     wall. */

  /** The search state right after the player and the end are located. */
  const Opening := RouteState(
    [Start],
    [Start],
    map[],
    Start)

  /** The closest move from the start leads into the dead end, and the start is recorded as an
      intersection. */
  const DeadEnd := RouteState(
    [Start, Coordinate(3, 1)],
    [Start, Coordinate(3, 1)],
    map[Start := [Coordinate(5, 2), Coordinate(5, 1), Coordinate(3, 1)]],
    Coordinate(3, 1))

  /** Back at the start, with the dead end struck from the start's list. */
  const BackAtStart := RouteState(
    [Start],
    [Start, Coordinate(3, 1)],
    map[Start := [Coordinate(5, 2), Coordinate(5, 1)]],
    Start)
  const EastSide := RouteState(
    [Start, Coordinate(5, 1)],
    [Start, Coordinate(3, 1), Coordinate(5, 1)],
    map[Start := [Coordinate(5, 2), Coordinate(5, 1)]],
    Coordinate(5, 1))
  const EastCorner := RouteState(
    [Start, Coordinate(5, 1), Coordinate(5, 2)],
    [Start, Coordinate(3, 1), Coordinate(5, 1), Coordinate(5, 2)],
    map[Start := [Coordinate(5, 2), Coordinate(5, 1)]],
    Coordinate(5, 2))
  const BottomRow := RouteState(
    [Start, Coordinate(5, 1), Coordinate(5, 2), Coordinate(4, 3)],
    [Start, Coordinate(3, 1), Coordinate(5, 1), Coordinate(5, 2), Coordinate(4, 3)],
    map[Start := [Coordinate(5, 2), Coordinate(5, 1)],
        Coordinate(5, 2) := [Coordinate(5, 3), Coordinate(4, 3)]],
    Coordinate(4, 3))
  const BottomMiddle := RouteState(
    [Start, Coordinate(5, 1), Coordinate(5, 2), Coordinate(4, 3), Coordinate(3, 3)],
    [Start, Coordinate(3, 1), Coordinate(5, 1), Coordinate(5, 2), Coordinate(4, 3), Coordinate(3, 3)],
    map[Start := [Coordinate(5, 2), Coordinate(5, 1)],
        Coordinate(5, 2) := [Coordinate(5, 3), Coordinate(4, 3)],
        Coordinate(4, 3) := [Coordinate(5, 3), Coordinate(3, 3)]],
    Coordinate(3, 3))
  const BottomLeft := RouteState(
    [Start, Coordinate(5, 1), Coordinate(5, 2), Coordinate(4, 3), Coordinate(3, 3), Coordinate(2, 3)],
    [Start, Coordinate(3, 1), Coordinate(5, 1), Coordinate(5, 2), Coordinate(4, 3), Coordinate(3, 3), Coordinate(2, 3)],
    map[Start := [Coordinate(5, 2), Coordinate(5, 1)],
        Coordinate(5, 2) := [Coordinate(5, 3), Coordinate(4, 3)],
        Coordinate(4, 3) := [Coordinate(5, 3), Coordinate(3, 3)]],
    Coordinate(2, 3))
  const WestSide := RouteState(
    [Start, Coordinate(5, 1), Coordinate(5, 2), Coordinate(4, 3), Coordinate(3, 3), Coordinate(2, 3), Coordinate(1, 2)],
    [Start, Coordinate(3, 1), Coordinate(5, 1), Coordinate(5, 2), Coordinate(4, 3), Coordinate(3, 3), Coordinate(2, 3), Coordinate(1, 2)],
    map[Start := [Coordinate(5, 2), Coordinate(5, 1)],
        Coordinate(5, 2) := [Coordinate(5, 3), Coordinate(4, 3)],
        Coordinate(4, 3) := [Coordinate(5, 3), Coordinate(3, 3)],
        Coordinate(2, 3) := [Coordinate(1, 3), Coordinate(1, 2)]],
    Coordinate(1, 2))

  /** The end reached: the route the corrected search finds. */
  const Solved := RouteState(
    [Start, Coordinate(5, 1), Coordinate(5, 2), Coordinate(4, 3), Coordinate(3, 3), Coordinate(2, 3), Coordinate(1, 2), Finish],
    [Start, Coordinate(3, 1), Coordinate(5, 1), Coordinate(5, 2), Coordinate(4, 3), Coordinate(3, 3), Coordinate(2, 3), Coordinate(1, 2)],
    map[Start := [Coordinate(5, 2), Coordinate(5, 1)],
        Coordinate(5, 2) := [Coordinate(5, 3), Coordinate(4, 3)],
        Coordinate(4, 3) := [Coordinate(5, 3), Coordinate(3, 3)],
        Coordinate(2, 3) := [Coordinate(1, 3), Coordinate(1, 2)]],
    Coordinate(1, 2))

  /* From the start (4, 1) the candidates are (5, 2), (5, 1) and (3, 1), at distances 5, 4 and
     2 from the end: the search enters (3, 1) and records the start as an intersection. */

  lemma OpeningKept()
    ensures KeptAround(Start, [Start]) == [Coordinate(5, 2), Coordinate(5, 1), Coordinate(3, 1)]
  {
  }

  lemma OpeningChooses()
    ensures Chooses(Start, [Start],
      [Coordinate(5, 2), Coordinate(5, 1), Coordinate(3, 1)], Coordinate(3, 1))
  {
    OpeningKept();
  }

  lemma OpeningNext()
    ensures StepTo(NoteIntersection(Opening, [Coordinate(5, 2), Coordinate(5, 1), Coordinate(3, 1)]), Coordinate(3, 1)) == DeadEnd
  {
    assert Opening.route + [Coordinate(3, 1)] == DeadEnd.route;
    assert Opening.recognition + [Coordinate(3, 1)] == DeadEnd.recognition;
    assert Opening.intersections[Opening.playerCoordinate := [Coordinate(5, 2), Coordinate(5, 1), Coordinate(3, 1)]] == DeadEnd.intersections;
  }

  lemma OpeningStep(floor: nat)
    ensures Advance(Maze, Finish, Opening, floor) == Ok(DeadEnd)
  {
    OpeningChooses();
    OpeningNext();
    StepsTo(Opening, [Coordinate(5, 2), Coordinate(5, 1), Coordinate(3, 1)], Coordinate(3, 1), floor);
  }

  /* Back at the start, with (3, 1) entered, the candidates are (5, 2) and (5, 1), at distances 5
     and 4: the search enters (5, 1); the start is already recorded. */

  lemma BackAtStartKept()
    ensures KeptAround(Start, [Start, Coordinate(3, 1)]) == [Coordinate(5, 2), Coordinate(5, 1)]
  {
  }

  lemma BackAtStartChooses()
    ensures Chooses(Start, [Start, Coordinate(3, 1)],
      [Coordinate(5, 2), Coordinate(5, 1)], Coordinate(5, 1))
  {
    BackAtStartKept();
  }

  lemma BackAtStartNext()
    ensures StepTo(NoteIntersection(BackAtStart, [Coordinate(5, 2), Coordinate(5, 1)]), Coordinate(5, 1)) == EastSide
  {
    assert BackAtStart.route + [Coordinate(5, 1)] == EastSide.route;
    assert BackAtStart.recognition + [Coordinate(5, 1)] == EastSide.recognition;
    assert BackAtStart.intersections == EastSide.intersections;
  }

  lemma BackAtStartStep(floor: nat)
    ensures Advance(Maze, Finish, BackAtStart, floor) == Ok(EastSide)
  {
    BackAtStartChooses();
    BackAtStartNext();
    StepsTo(BackAtStart, [Coordinate(5, 2), Coordinate(5, 1)], Coordinate(5, 1), floor);
  }

  /* From (5, 1) the only candidate is (5, 2). */

  lemma EastSideKept()
    ensures KeptAround(Coordinate(5, 1), [Start, Coordinate(3, 1), Coordinate(5, 1)]) == [Coordinate(5, 2)]
  {
  }

  lemma EastSideChooses()
    ensures Chooses(Coordinate(5, 1), [Start, Coordinate(3, 1), Coordinate(5, 1)],
      [Coordinate(5, 2)], Coordinate(5, 2))
  {
    EastSideKept();
  }

  lemma EastSideNext()
    ensures StepTo(NoteIntersection(EastSide, [Coordinate(5, 2)]), Coordinate(5, 2)) == EastCorner
  {
    assert EastSide.route + [Coordinate(5, 2)] == EastCorner.route;
    assert EastSide.recognition + [Coordinate(5, 2)] == EastCorner.recognition;
    assert EastSide.intersections == EastCorner.intersections;
  }

  lemma EastSideStep(floor: nat)
    ensures Advance(Maze, Finish, EastSide, floor) == Ok(EastCorner)
  {
    EastSideChooses();
    EastSideNext();
    StepsTo(EastSide, [Coordinate(5, 2)], Coordinate(5, 2), floor);
  }

  /* From (5, 2) the candidates are (5, 3) and (4, 3), at distances 6 and 5: the search enters
     (4, 3) and records (5, 2). */

  lemma EastCornerKept()
    ensures KeptAround(Coordinate(5, 2), [Start, Coordinate(3, 1), Coordinate(5, 1), Coordinate(5, 2)]) == [Coordinate(5, 3), Coordinate(4, 3)]
  {
  }

  lemma EastCornerChooses()
    ensures Chooses(Coordinate(5, 2), [Start, Coordinate(3, 1), Coordinate(5, 1), Coordinate(5, 2)],
      [Coordinate(5, 3), Coordinate(4, 3)], Coordinate(4, 3))
  {
    EastCornerKept();
  }

  lemma EastCornerNext()
    ensures StepTo(NoteIntersection(EastCorner, [Coordinate(5, 3), Coordinate(4, 3)]), Coordinate(4, 3)) == BottomRow
  {
    assert EastCorner.route + [Coordinate(4, 3)] == BottomRow.route;
    assert EastCorner.recognition + [Coordinate(4, 3)] == BottomRow.recognition;
    assert EastCorner.intersections[EastCorner.playerCoordinate := [Coordinate(5, 3), Coordinate(4, 3)]] == BottomRow.intersections;
  }

  lemma EastCornerStep(floor: nat)
    ensures Advance(Maze, Finish, EastCorner, floor) == Ok(BottomRow)
  {
    EastCornerChooses();
    EastCornerNext();
    StepsTo(EastCorner, [Coordinate(5, 3), Coordinate(4, 3)], Coordinate(4, 3), floor);
  }

  /* From (4, 3) the candidates are (5, 3) and (3, 3), at distances 6 and 4: the search enters
     (3, 3) and records (4, 3). */

  lemma BottomRowKept()
    ensures KeptAround(Coordinate(4, 3), [Start, Coordinate(3, 1), Coordinate(5, 1), Coordinate(5, 2), Coordinate(4, 3)]) == [Coordinate(5, 3), Coordinate(3, 3)]
  {
  }

  lemma BottomRowChooses()
    ensures Chooses(Coordinate(4, 3), [Start, Coordinate(3, 1), Coordinate(5, 1), Coordinate(5, 2), Coordinate(4, 3)],
      [Coordinate(5, 3), Coordinate(3, 3)], Coordinate(3, 3))
  {
    BottomRowKept();
  }

  lemma BottomRowNext()
    ensures StepTo(NoteIntersection(BottomRow, [Coordinate(5, 3), Coordinate(3, 3)]), Coordinate(3, 3)) == BottomMiddle
  {
    assert BottomRow.route + [Coordinate(3, 3)] == BottomMiddle.route;
    assert BottomRow.recognition + [Coordinate(3, 3)] == BottomMiddle.recognition;
    assert BottomRow.intersections[BottomRow.playerCoordinate := [Coordinate(5, 3), Coordinate(3, 3)]] == BottomMiddle.intersections;
  }

  lemma BottomRowStep(floor: nat)
    ensures Advance(Maze, Finish, BottomRow, floor) == Ok(BottomMiddle)
  {
    BottomRowChooses();
    BottomRowNext();
    StepsTo(BottomRow, [Coordinate(5, 3), Coordinate(3, 3)], Coordinate(3, 3), floor);
  }

  /* From (3, 3) the only candidate is (2, 3). */

  lemma BottomMiddleKept()
    ensures KeptAround(Coordinate(3, 3), [Start, Coordinate(3, 1), Coordinate(5, 1), Coordinate(5, 2), Coordinate(4, 3), Coordinate(3, 3)]) == [Coordinate(2, 3)]
  {
  }

  lemma BottomMiddleChooses()
    ensures Chooses(Coordinate(3, 3), [Start, Coordinate(3, 1), Coordinate(5, 1), Coordinate(5, 2), Coordinate(4, 3), Coordinate(3, 3)],
      [Coordinate(2, 3)], Coordinate(2, 3))
  {
    BottomMiddleKept();
  }

  lemma BottomMiddleNext()
    ensures StepTo(NoteIntersection(BottomMiddle, [Coordinate(2, 3)]), Coordinate(2, 3)) == BottomLeft
  {
    assert BottomMiddle.route + [Coordinate(2, 3)] == BottomLeft.route;
    assert BottomMiddle.recognition + [Coordinate(2, 3)] == BottomLeft.recognition;
    assert BottomMiddle.intersections == BottomLeft.intersections;
  }

  lemma BottomMiddleStep(floor: nat)
    ensures Advance(Maze, Finish, BottomMiddle, floor) == Ok(BottomLeft)
  {
    BottomMiddleChooses();
    BottomMiddleNext();
    StepsTo(BottomMiddle, [Coordinate(2, 3)], Coordinate(2, 3), floor);
  }

  /* From (2, 3) the candidates are (1, 3) and (1, 2), at distances 2 and 1: the search enters
     (1, 2) and records (2, 3). */

  lemma BottomLeftKept()
    ensures KeptAround(Coordinate(2, 3), [Start, Coordinate(3, 1), Coordinate(5, 1), Coordinate(5, 2), Coordinate(4, 3), Coordinate(3, 3), Coordinate(2, 3)]) == [Coordinate(1, 3), Coordinate(1, 2)]
  {
  }

  lemma BottomLeftChooses()
    ensures Chooses(Coordinate(2, 3), [Start, Coordinate(3, 1), Coordinate(5, 1), Coordinate(5, 2), Coordinate(4, 3), Coordinate(3, 3), Coordinate(2, 3)],
      [Coordinate(1, 3), Coordinate(1, 2)], Coordinate(1, 2))
  {
    BottomLeftKept();
  }

  lemma BottomLeftNext()
    ensures StepTo(NoteIntersection(BottomLeft, [Coordinate(1, 3), Coordinate(1, 2)]), Coordinate(1, 2)) == WestSide
  {
    assert BottomLeft.route + [Coordinate(1, 2)] == WestSide.route;
    assert BottomLeft.recognition + [Coordinate(1, 2)] == WestSide.recognition;
    assert BottomLeft.intersections[BottomLeft.playerCoordinate := [Coordinate(1, 3), Coordinate(1, 2)]] == WestSide.intersections;
  }

  lemma BottomLeftStep(floor: nat)
    ensures Advance(Maze, Finish, BottomLeft, floor) == Ok(WestSide)
  {
    BottomLeftChooses();
    BottomLeftNext();
    StepsTo(BottomLeft, [Coordinate(1, 3), Coordinate(1, 2)], Coordinate(1, 2), floor);
  }

  /* From (1, 2) the candidates are (1, 3) and the end. */

  lemma WestSideKept()
    ensures KeptAround(Coordinate(1, 2), WestSide.recognition) == [Coordinate(1, 3), Finish]
  {
  }

  lemma WestSideMoves()
    ensures PossibleCoordinatesToGo(Maze, WestSide.playerCoordinate, WestSide.recognition) == Ok([Coordinate(1, 3), Finish])
  {
    WestSideKept();
    MovesAt(WestSide.playerCoordinate, WestSide.recognition);
  }

  /** From (1, 2) the end is a candidate, and the search steps onto it. */
  lemma WestSideStep(floor: nat)
    ensures Advance(Maze, Finish, WestSide, floor) == Ok(Solved)
  {
    WestSideMoves();
    assert WestSide.route + [Finish] == Solved.route;
    AdvanceReachesEnd(Maze, Finish, WestSide, [Coordinate(1, 3), Finish], floor);
  }

  /* (3, 1) is walled in on every side but the start's. */

  lemma DeadEndKept()
    ensures KeptAround(Coordinate(3, 1), DeadEnd.recognition) == []
  {
  }

  /** The dead end offers no move. */
  lemma DeadEndMoves()
    ensures PossibleCoordinatesToGo(Maze, Coordinate(3, 1), DeadEnd.recognition) == Ok([])
  {
    DeadEndKept();
    MovesAt(Coordinate(3, 1), DeadEnd.recognition);
  }

  /** On a map whose player stands at `Start` and whose end is at `Finish`, the search starts
      from the player's square, with nothing recorded. */
  lemma Opens(g: Grid, floor: nat)
    requires Locate(g, Player) == Ok(Start) && Locate(g, End) == Ok(Finish)
    ensures CalculatedRoute(g, Unsearched, floor) == Explore(g, Finish, Opening, floor)
  {
    assert Unsearched.route + [Start] == [Start];
  }

  /** Every search starts by walking into the dead end. */
  lemma IntoDeadEnd(floor: nat)
    ensures CalculatedRoute(Maze, Unsearched, floor) == Explore(Maze, Finish, DeadEnd, floor)
  {
    MazeLocations();
    Opens(Maze, floor);
    OpeningStep(floor);
    ExploreMoves(Maze, Finish, Opening, DeadEnd, floor);
  }

  // ---------------------------------------------------------------- as written

  /** As written, the scan for an intersection stops before the start, so backtracking from the
      dead end fails. */
  lemma AsWrittenCannotBacktrack()
    ensures Advance(Maze, Finish, DeadEnd, SourceScanFloor) == Err(GameException)
  {
    DeadEndMoves();
    assert Backtrack(DeadEnd, SourceScanFloor) == Err(GameException);
    AdvanceBacktracks(Maze, Finish, DeadEnd, SourceScanFloor);
  }

  /** The detour is a route from the player to the end. */
  lemma DetourIsValid()
    ensures ValidRoute(Maze, Detour, Start, Finish)
  {
    assert Steps(Detour) by {
      forall i | 0 <= i < |Detour| - 1
        ensures Adjacent(Detour[i], Detour[i + 1])
      {
      }
    }
  }

  /** As written, the search gives up on this maze, although a route to the end exists. */
  lemma AsWrittenGivesUp()
    ensures CalculatedRoute(Maze, Unsearched, SourceScanFloor) == Err(GameException)
    ensures ValidRoute(Maze, Detour, Start, Finish)
  {
    IntoDeadEnd(SourceScanFloor);
    AsWrittenCannotBacktrack();
    ExploreStep(Maze, Finish, DeadEnd, SourceScanFloor);
    DetourIsValid();
  }

  // ---------------------------------------------------------------- corrected

  /** A scan that looks at the start finds it, and backtracking strikes the dead end from the
      start's list. */
  lemma CorrectedBacktrack()
    ensures Backtrack(DeadEnd, CorrectedScanFloor) == Ok(BackAtStart)
  {
    assert LastIntersection(DeadEnd.route, DeadEnd.intersections, 0, CorrectedScanFloor) == Some(0);
    BacktrackFrom(DeadEnd, 0, CorrectedScanFloor);
    KeepUntilCut(DeadEnd.route, DeadEnd.route[1..], 1);
    assert DeadEnd.route[..1] == BackAtStart.route;
    assert RemoveFirst(DeadEnd.intersections[Start], Coordinate(3, 1)) == [Coordinate(5, 2), Coordinate(5, 1)];
    assert DeadEnd.intersections[Start := [Coordinate(5, 2), Coordinate(5, 1)]] == BackAtStart.intersections;
  }

  /** Any search that backtracks from the dead end to the start moves on from there to the
      square east of it. */
  lemma Retreats(floor: nat)
    requires Backtrack(DeadEnd, floor) == Ok(BackAtStart)
    ensures Advance(Maze, Finish, DeadEnd, floor) == Ok(EastSide)
  {
    DeadEndMoves();
    AdvanceBacktracks(Maze, Finish, DeadEnd, floor);
    BackAtStartStep(floor);
  }

  /** Any search that backtracks from the dead end to the start goes round the wall to the
      bottom row. */
  lemma WalksRound(floor: nat)
    requires Backtrack(DeadEnd, floor) == Ok(BackAtStart)
    ensures Explore(Maze, Finish, DeadEnd, floor) == Explore(Maze, Finish, BottomRow, floor)
  {
    Retreats(floor);
    ExploreMoves(Maze, Finish, DeadEnd, EastSide, floor);
    EastSideStep(floor);
    ExploreMoves(Maze, Finish, EastSide, EastCorner, floor);
    EastCornerStep(floor);
    ExploreMoves(Maze, Finish, EastCorner, BottomRow, floor);
  }

  /** From the bottom row the search goes along it to (2, 3). */
  lemma AlongBottom(floor: nat)
    ensures Explore(Maze, Finish, BottomRow, floor) == Explore(Maze, Finish, BottomLeft, floor)
  {
    BottomRowStep(floor);
    ExploreMoves(Maze, Finish, BottomRow, BottomMiddle, floor);
    BottomMiddleStep(floor);
    ExploreMoves(Maze, Finish, BottomMiddle, BottomLeft, floor);
  }

  /** From (1, 2) the search steps onto the end and stops. */
  lemma Arrives(floor: nat)
    ensures Explore(Maze, Finish, WestSide, floor) == Ok(Solved)
  {
    WestSideStep(floor);
    ExploreMoves(Maze, Finish, WestSide, Solved, floor);
  }

  /** From (2, 3) the search goes up to the end. */
  lemma UpToEnd(floor: nat)
    ensures Explore(Maze, Finish, BottomLeft, floor) == Ok(Solved)
  {
    BottomLeftStep(floor);
    ExploreMoves(Maze, Finish, BottomLeft, WestSide, floor);
    Arrives(floor);
  }

  /** With a scan that also looks at the start, the search solves the maze the code as written
      gives up on, and the route it finds leads from the player to the end. */
  lemma CorrectedSolves()
    ensures CalculatedRoute(Maze, Unsearched, CorrectedScanFloor) == Ok(Solved)
    ensures ValidRoute(Maze, Solved.route, Start, Finish)
  {
    IntoDeadEnd(CorrectedScanFloor);
    CorrectedBacktrack();
    WalksRound(CorrectedScanFloor);
    AlongBottom(CorrectedScanFloor);
    UpToEnd(CorrectedScanFloor);
    MazeLocations();
    CalculatedRouteIsValid(Maze, CorrectedScanFloor);
  }
}
