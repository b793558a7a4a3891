# Laberinto maze solver, modelled in Dafny

Laberinto reads a maze from a text file. Walls are `+`, `-` and `|`, open squares are spaces, the
player is `P` and the end is `F`. It then searches a route from the player to the end, scores the
time the player needs to walk that route, and writes the maze back with the route drawn in `*`.

The model covers the engine of that program:

- **`Labyrinth`** models `LabyrinthMap`:
  - parsing the lines of text into a rectangular array of squares;
  - the row-major search for the player or the end;
  - reading one square;
  - looking around a square in the eight directions.
- **`Routing`** states the route search (`Game.calculateRoute` and its helpers) as pure functions
  over a `RouteState` value:
  - the candidate squares around the player;
  - the greedy choice of the candidate closest to the end;
  - recording intersections;
  - backtracking from a dead end to the last intersection;
  - the search loop.
  
  Its lemmas prove what the search guarantees. A route it returns starts at the player, ends at
  the end, moves one square at a time (axis or diagonal), only crosses open squares and never
  visits a square twice. On a maze enclosed by walls the search can only fail by giving up, and
  every loop terminates.
- **`Games`** is the `Game` class itself. Its fields are the route, the explored squares, the
  intersection table, the player's square and the pace. Its methods update them in place, each
  proved to leave the state the corresponding `Routing` or `Timing` function computes.
- **`Timing`** models the scoring:
  - every square costs the current time per square;
  - going straight speeds the player up by 0.1 down to 0.6;
  - a turn resets the cost to 1.0.
  
  Times are counted in tenths, so the source's one-decimal rounding is exact.
- **`MapView`** models the part of `App.saveMap` that marks the route on the lines of the map.
- **`Directions`**, **`Elements`** and **`Coordinates`** model the enums `MovementDirection` and
  `Element` and the record `Coordinate`. **`Results`** holds the error kinds:
  - `MapException`;
  - `GameException`;
  - `OutOfBounds`, Java's `ArrayIndexOutOfBoundsException` escaping from the array read.

Where the comments in the code promise more than the code does, the model follows the code as
written:

- The explored squares (`recognition`) hold every square entered, intersections included, and are
  never pruned when the search backtracks. The field's comment (Game.java:76-80) speaks of
  squares that are not intersections; `moveEfficiently` adds every square (Game.java:285), and
  `moveToLastIntersection` never removes one (Game.java:348-375).
- The next move is always recomputed from the squares around the player (Game.java:269). The
  lists of unexplored ways stored for intersections (Game.java:68-74) are only written
  (Game.java:278) and struck through on backtracking (Game.java:361); nothing reads them to choose
  a move.
- The time of a route is refused unless the route *contains* the player's and the end's squares
  (Game.java:153-154). It does not have to start and end at them, although the comment at
  Game.java:148 speaks of a wrong route.

The backwards scan for an intersection takes its lowest index as a parameter, `floor`. The
game (`Games`) always uses `Routing.SourceScanFloor`, which is 1, as in the code. The lemmas about
the search hold for every floor, so they also hold for the corrected scan (`Routing.CorrectedScanFloor`, which is 0). The module **`StartBranch`** proves what the search does on one
concrete maze with both floors; see "## Findings".

## Model

| member | source | states |
|---|---|---|
| Coordinates.CoordinateEquality | laberinto/src/main/java/app/labyrinth/model/Coordinate.java:6 | two coordinates are equal iff both components are equal |
| Coordinates.CoordinateEqualityFixtures | laberinto/src/test/java/app/laberinto/CoordinateTests.java:23-27 | the four pairs of the equality test: (1,5)=(1,5); (1,1)≠(3,3), (8,4)≠(8,9), (1,7)≠(5,7) |
| Directions.MovementDirection.XMovement | laberinto/src/main/java/app/labyrinth/model/MovementDirection.java:8-15 | every direction moves at most one column |
| Directions.MovementDirection.YMovement | laberinto/src/main/java/app/labyrinth/model/MovementDirection.java:8-15 | every direction moves at most one row |
| Directions.Neighbour | laberinto/src/main/java/app/labyrinth/model/Game.java:314-315 | the square reached by a move is a different square touching the start, along an axis or diagonally |
| Directions.EightDirections | laberinto/src/main/java/app/labyrinth/model/LabyrinthMap.java:21-24 | the map's scan order lists each of the eight directions exactly once |
| Directions.OffsetsDistinct | laberinto/src/main/java/app/labyrinth/model/MovementDirection.java:8-15 | no direction stands still and different directions lead to different squares |
| Directions.NeighbourhoodCovered | laberinto/src/main/java/app/labyrinth/model/MovementDirection.java:8-15 | the eight moves reach exactly the squares adjacent to a square (both directions) |
| Directions.OppositeNegates | laberinto/src/main/java/app/labyrinth/model/MovementDirection.java:8-15 | each direction has an opposite with negated offsets, and moving there and back returns to the start |
| Elements.Element.Representation | laberinto/src/main/java/app/labyrinth/model/Element.java:9-13 | every kind of square is drawn by one to three characters |
| Elements.RepresentationsDisjoint | laberinto/src/main/java/app/labyrinth/model/Element.java:9-13 | no character draws two different kinds of square |
| Labyrinth.ElementOfCharCases | laberinto/src/main/java/app/labyrinth/model/LabyrinthMap.java:165-172 | the parser's character table read both ways: space, P, F and * are their kinds, and every other character is a wall |
| Labyrinth.ElementOfChar | laberinto/src/main/java/app/labyrinth/model/LabyrinthMap.java:165-172 | the kind read for a character draws that character, or the character draws no kind and the square is a wall |
| Labyrinth.RepresentationRoundTrip | laberinto/src/main/java/app/labyrinth/model/LabyrinthMap.java:165-172 | parsing any character that draws a kind gives back that kind |
| Labyrinth.ParseMap | laberinto/src/main/java/app/labyrinth/model/LabyrinthMap.java:149-180 | parsing succeeds iff there is a line and no line is shorter than the first; then the grid is rectangular, one row per line and one column per character of the first line, each square the kind of its character; otherwise a MapException |
| Labyrinth.FindInRow | laberinto/src/main/java/app/labyrinth/model/LabyrinthMap.java:100-105 | the inner scan finds the first column holding the element, or reports that none does |
| Labyrinth.FindFrom | laberinto/src/main/java/app/labyrinth/model/LabyrinthMap.java:98-106 | a square found by the outer scan lies inside the map, holds the element and is not above the starting row |
| Labyrinth.FindFromFirst | laberinto/src/main/java/app/labyrinth/model/LabyrinthMap.java:98-106 | no square scanned before the one found holds the element, and when nothing is found no square does |
| Labyrinth.Locate | laberinto/src/main/java/app/labyrinth/model/LabyrinthMap.java:90-109 | a coordinate returned lies in the map and holds the element asked for; a failure is a MapException |
| Labyrinth.LocateFindsFirst | laberinto/src/main/java/app/labyrinth/model/LabyrinthMap.java:90-109 | the player or the end is found iff the map holds it, and what is found is its first square in row-major order; any other element is refused |
| Labyrinth.SurroundingElements | laberinto/src/main/java/app/labyrinth/model/LabyrinthMap.java:125-142 | looking around succeeds iff all eight neighbours lie in the map, and then maps every direction to the square in that direction; otherwise OutOfBounds |
| Labyrinth.SurroundingHasEightEntries | laberinto/src/main/java/app/labyrinth/model/LabyrinthMap.java:133-137 | a successful look around has exactly eight entries |
| Labyrinth.SurroundedIffStrictlyInside | laberinto/src/main/java/app/labyrinth/model/LabyrinthMap.java:125-142 | on a rectangular map, looking around succeeds exactly on the squares strictly inside the outer ring |
| Labyrinth.OpenSquaresAreSurrounded | laberinto/src/main/java/app/labyrinth/model/LabyrinthMap.java:125-142 | in a maze walled all round, every open square can be looked around |
| Labyrinth.LabyrinthMap.constructor | laberinto/src/main/java/app/labyrinth/model/LabyrinthMap.java:44-52 | a map object holds the array it is given, which is consistent with the grid value |
| Labyrinth.LabyrinthMap.Load | laberinto/src/main/java/app/labyrinth/model/LabyrinthMap.java:149-180 | loading fills a fresh array with exactly the grid `ParseMap` describes, and fails with a MapException exactly when parsing does |
| Labyrinth.LabyrinthMap.GetElementAtCoordinate | laberinto/src/main/java/app/labyrinth/model/LabyrinthMap.java:116-118 | reading succeeds iff the coordinate lies in the map, giving the square there, row first |
| Labyrinth.LabyrinthMap.GetElementCoordinates | laberinto/src/main/java/app/labyrinth/model/LabyrinthMap.java:90-109 | the nested loops over the array return what `Locate` specifies: the first match, or a MapException |
| Labyrinth.LabyrinthMap.GetSurroundingElements | laberinto/src/main/java/app/labyrinth/model/LabyrinthMap.java:125-142 | the loop over the eight directions builds the map `SurroundingElements` specifies, or fails with OutOfBounds at the first read past the edge |
| Routing.DirectDistanceToEnd | laberinto/src/main/java/app/labyrinth/model/Game.java:384-391 | the heuristic never exceeds the Manhattan distance, and equals it on non-negative coordinates |
| Routing.Candidates | laberinto/src/main/java/app/labyrinth/model/Game.java:309-318 | at most one candidate per direction; every open, unexplored neighbour is a candidate and every candidate is one |
| Routing.PossibleCoordinatesToGo | laberinto/src/main/java/app/labyrinth/model/Game.java:302-321 | the candidate list exists iff the player's square can be looked around; otherwise OutOfBounds |
| Routing.PossibleCoordinatesAreCandidates | laberinto/src/main/java/app/labyrinth/model/Game.java:309-318 | a square is listed iff it is adjacent to the player, inside the map, not a wall and not explored |
| Routing.CandidatesAreOpenNeighbours | laberinto/src/main/java/app/labyrinth/model/Game.java:309-318 | the list built from the looked-around squares holds exactly the open, unexplored neighbours |
| Routing.IndexOf | laberinto/src/main/java/app/labyrinth/model/Game.java:340 | the index found holds the value and no earlier index does |
| Routing.FoldMin | laberinto/src/main/java/app/labyrinth/model/Game.java:337-338 | the reduction gives a value of the list (or the seed) no larger than any of them |
| Routing.Distances | laberinto/src/main/java/app/labyrinth/model/Game.java:332-334 | one distance per candidate, in list order, each the distance of that candidate to the end |
| Routing.OptimalWay | laberinto/src/main/java/app/labyrinth/model/Game.java:329-341 | the chosen square is one of the candidates |
| Routing.OptimalWayIsFirstClosest | laberinto/src/main/java/app/labyrinth/model/Game.java:329-341 | the chosen candidate is at the least distance to the end, and every candidate before it in the list is farther |
| Routing.FirstMinimum | laberinto/src/main/java/app/labyrinth/model/Game.java:337-340 | the first index of the smallest distance is at least as close as every candidate and strictly closer than those before it |
| Routing.LastIntersection | laberinto/src/main/java/app/labyrinth/model/Game.java:352-353 | the backwards scan finds the latest recorded intersection at index `floor` or later, with none after it; when it finds nothing, no index from `floor` on holds one (the game's floor is 1) |
| Routing.RemoveFirst | laberinto/src/main/java/app/labyrinth/model/Game.java:361 | `List.remove` never lengthens the list |
| Routing.RemoveFirstCounts | laberinto/src/main/java/app/labyrinth/model/Game.java:361 | `List.remove` drops exactly one occurrence of the value when there is one, and keeps everything else |
| Routing.RemoveFirstAbsent | laberinto/src/main/java/app/labyrinth/model/Game.java:361 | `List.remove` of an absent value leaves the list unchanged |
| Routing.RemoveFirstOccurrence | laberinto/src/main/java/app/labyrinth/model/Game.java:361 | `List.remove` drops the first occurrence and keeps the entries around it in order |
| Routing.RemoveAll | laberinto/src/main/java/app/labyrinth/model/Game.java:366-367 | `removeAll` never lengthens the route |
| Routing.RemoveAllKeeps | laberinto/src/main/java/app/labyrinth/model/Game.java:366-367 | `removeAll` keeps exactly the squares not in the removed sublist |
| Routing.RemoveAllTail | laberinto/src/main/java/app/labyrinth/model/Game.java:366-367 | removing the route's tail from index k leaves at most k squares, and exactly the first k on a route with no repeated square |
| Routing.KeepsAtMost | laberinto/src/main/java/app/labyrinth/model/Game.java:366-367 | removing a list that holds every square from index k on leaves at most k squares |
| Routing.KeepUntilCut | laberinto/src/main/java/app/labyrinth/model/Game.java:366-367 | when only the squares from index k on are in the removed list, removing it cuts the route at k |
| Routing.Backtrack | laberinto/src/main/java/app/labyrinth/model/Game.java:348-375 | backtracking shortens the route and keeps the explored squares; its only failure is a GameException |
| Routing.BacktrackFails | laberinto/src/main/java/app/labyrinth/model/Game.java:352-374 | backtracking fails iff no square from index `floor` up to the one before the player's is a recorded intersection; with the game's floor of 1 the start never counts |
| Routing.BacktrackCuts | laberinto/src/main/java/app/labyrinth/model/Game.java:352-369 | on a route without repeats: the route is cut just after the latest intersection, at index `floor` or later, and none lies after it. The player moves to that intersection, and the square that led into the dead end is struck from its list |
| Routing.NoteIntersection | laberinto/src/main/java/app/labyrinth/model/Game.java:276-279 | a square offering more than one move and not yet recorded is recorded with the whole candidate list as its unexplored ways, and no other entry changes; otherwise the state is unchanged. Route, explored squares and player never change |
| Routing.NoteIntersectionKeepsLists | laberinto/src/main/java/app/labyrinth/model/Game.java:277-279 | recorded lists are never replaced; the player's square is recorded iff there is more than one candidate |
| Routing.StepTo | laberinto/src/main/java/app/labyrinth/model/Game.java:283-285 | the chosen square becomes the player's and is appended to the route and to the explored squares; nothing else changes |
| Routing.Advance | laberinto/src/main/java/app/labyrinth/model/Game.java:266-295 | a move either reaches the end without exploring anything new, or enters exactly one unexplored square of the map; it fails only with GameException or OutOfBounds |
| Routing.ExploringShrinks | laberinto/src/main/java/app/labyrinth/model/Game.java:218-220 | entering a new square of the map leaves fewer squares unexplored |
| Routing.Explore | laberinto/src/main/java/app/labyrinth/model/Game.java:218-220 | the search loop stops with the end on the route, or fails with GameException or OutOfBounds |
| Routing.ExploreStep | laberinto/src/main/java/app/labyrinth/model/Game.java:218-220 | one turn of the loop: a failed move ends the search with its error, and otherwise the search continues from the new state. That state has fewer unexplored squares, or the same number and the end on the route |
| Routing.BacktrackKeepsSearching | laberinto/src/main/java/app/labyrinth/model/Game.java:348-369 | backtracking keeps the search invariant: route from the start, player at its tail, no repeats, adjacent steps, open squares, end unexplored |
| Routing.ReachingEndCompletes | laberinto/src/main/java/app/labyrinth/model/Game.java:272-273 | stepping onto the end from a searching state completes a valid route |
| Routing.SteppingKeepsSearching | laberinto/src/main/java/app/labyrinth/model/Game.java:282-285 | stepping onto a candidate other than the end keeps the search invariant |
| Routing.AdvanceKeepsSearching | laberinto/src/main/java/app/labyrinth/model/Game.java:266-295 | a move keeps the search invariant or completes a valid route; on a maze walled all round it can only fail with GameException |
| Routing.ExploreFindsValidRoute | laberinto/src/main/java/app/labyrinth/model/Game.java:218-220 | the search loop ends with a valid route or fails, and on a walled maze only by giving up |
| Routing.CalculatedRoute | laberinto/src/main/java/app/labyrinth/model/Game.java:208-220 | a map without a player or an end gives a MapException; a route found holds the end; a failure is a MapException, GameException or OutOfBounds |
| Routing.CalculatedRouteIsValid | laberinto/src/main/java/app/labyrinth/model/Game.java:198-230 | on a fresh game, a calculated route goes from the player to the end, one adjacent open square at a time, never twice on a square. A map without player or end gives a MapException; a walled maze can fail only with GameException |
| Routing.StartIsSearching | laberinto/src/main/java/app/labyrinth/model/Game.java:208-216 | the initial state (route and explored squares holding the player, no intersections) satisfies the search invariant |
| Routing.EnclosedPlayerHasNoRoute | laberinto/src/main/java/app/labyrinth/model/Game.java:352-374 | a player walled in on all eight sides gets a GameException |
| Timing.ModifyVelocity | laberinto/src/main/java/app/labyrinth/model/Game.java:239-259 | a turn resets the pace to 1.0 and one square. Going straight keeps the count; after more than two squares in a line and above 0.6 the time drops by exactly 0.1, at 0.6 or below nothing changes, and within the first two squares nothing changes |
| Timing.Scan | laberinto/src/main/java/app/labyrinth/model/Game.java:164-181 | after n squares the time per square lies between 0.6 and 1.0 and the total between 2.0 + 0.6(n-2) and 1.0·n |
| Timing.TimeSpent | laberinto/src/main/java/app/labyrinth/model/Game.java:164-185 | a route of n ≥ 2 squares takes between 2.0 + 0.6(n-2) and 1.0·n; a shorter one 2.0 |
| Timing.TotalTimeSpent | laberinto/src/main/java/app/labyrinth/model/Game.java:151-192 | the time is given iff the map has a player and an end and the route contains both squares, and is then the route's walking time. The checks come in the code's order: no player on the map is a MapException, a route without the player's square a GameException, then no end a MapException and a route without the end's square a GameException |
| Timing.StraightLine | laberinto/src/main/java/app/labyrinth/model/Game.java:239-259 | walking n squares in a line the pace reaches max(0.6, 1.2 - 0.1n). The time is the function `StraightTime`: 2.0 for up to two squares, plus 0.9, 0.8 and 0.7 for the third, fourth and fifth square, which is 0.6n + 1.4 from five squares on |
| Timing.TurnResets | laberinto/src/main/java/app/labyrinth/model/Game.java:255-258 | the square after a turn costs 1.0 and restarts the count |
| Timing.TimingFixtureTakes136 | laberinto/src/test/java/app/laberinto/GameTests.java:46-80 | the timing test's route takes 13.6 |
| Timing.TimingFixtureWithoutEnd | laberinto/src/test/java/app/laberinto/GameTests.java:39-44 | the test's route lacks the mocked end square (6,6), so the total time is refused with a GameException |
| Games.Game.constructor | laberinto/src/main/java/app/labyrinth/model/Game.java:90-96 | a new game is on the given map, has searched nothing and has no time yet |
| Games.Game.GetPossibleCoordinatesToGo | laberinto/src/main/java/app/labyrinth/model/Game.java:302-321 | the method returns the candidate list `PossibleCoordinatesToGo` specifies for the current state |
| Games.Game.MoveToLastIntersection | laberinto/src/main/java/app/labyrinth/model/Game.java:348-375 | the backwards loop leaves the route and the intersections as `Backtrack` computes and returns the intersection, or returns a GameException and changes nothing |
| Games.Game.MoveEfficiently | laberinto/src/main/java/app/labyrinth/model/Game.java:266-295 | the recursive move leaves exactly the state `Advance` computes, or the same error, and does not touch the pace |
| Games.Game.StepForward | laberinto/src/main/java/app/labyrinth/model/Game.java:276-286 | notes the intersection, then steps onto the closest candidate, appending it to the route and the explored squares |
| Games.Game.Retreat | laberinto/src/main/java/app/labyrinth/model/Game.java:287-293 | from a dead end: backtrack and move again, agreeing with `Advance` |
| Games.Game.CalculateRoute | laberinto/src/main/java/app/labyrinth/model/Game.java:198-230 | leaves exactly the state `CalculatedRoute` computes, so every property proved of it holds of the game's route |
| Games.Game.MoveUntilEnd | laberinto/src/main/java/app/labyrinth/model/Game.java:218-220 | the loop leaves exactly the state `Explore` computes, or stops at the first failed move with its error |
| Games.Game.ModifyVelocityIfGoesStraight | laberinto/src/main/java/app/labyrinth/model/Game.java:239-259 | the pace fields become what `ModifyVelocity` gives for the three squares ending at the position; the search state is untouched |
| Games.Game.GetTotalTimeSpent | laberinto/src/main/java/app/labyrinth/model/Game.java:151-192 | returns exactly `TotalTimeSpent`, leaves the pace of the route's last square and does not change the search state |
| MapView.MarkLine | laberinto/src/main/java/app/labyrinth/view/App.java:257-261 | a marked line has the same length; a character is `*` iff its square is on the route or it already was `*`; every other character is kept |
| MapView.MarkedLines | laberinto/src/main/java/app/labyrinth/view/App.java:256-261 | marking keeps the number of lines and each line's length |
| MapView.SolvedMap | laberinto/src/main/java/app/labyrinth/view/App.java:256-265 | one output line per map line, one character longer, ending in a line break |
| MapView.SaveMapLines | laberinto/src/main/java/app/labyrinth/view/App.java:256-265 | the character-array loop produces exactly the marked map `SolvedMap` describes |
| MapView.SolvedSquares | laberinto/src/main/java/app/labyrinth/view/App.java:259-261 | in the written map a square is `*` iff it is on the route or was `*`; squares off the route keep their character |
| MapView.EmptyRouteKeepsMap | laberinto/src/main/java/app/labyrinth/view/App.java:256-265 | with an empty route every line is written back unchanged, plus its line break |
| MapView.OutsideRouteKeepsMap | laberinto/src/main/java/app/labyrinth/view/App.java:256-261 | route squares outside the text change nothing |
| MapView.MarkedMapShowsRoute | laberinto/src/main/java/app/labyrinth/view/App.java:256-265 | read back with the map parser, the marked map is the original with every route square inside it Travelled |
| StartBranch.MazeParses | laberinto/src/main/java/app/labyrinth/model/LabyrinthMap.java:149-180 | the example maze's text parses to its grid |
| StartBranch.MazeLocations | laberinto/src/main/java/app/labyrinth/model/LabyrinthMap.java:90-109 | the example maze's player is at (4, 1) and its end at (1, 1) |
| StartBranch.AsWrittenGivesUp | laberinto/src/main/java/app/labyrinth/model/Game.java:352 | with the code's scan floor the search gives up on the example maze with a GameException, although the detour round the wall is a valid route from the player to the end |
| StartBranch.CorrectedBacktrack | laberinto/src/main/java/app/labyrinth/model/Game.java:352-369 | with a scan that also looks at index 0, backtracking from the dead end returns to the start and strikes the dead end from its list |
| StartBranch.CorrectedSolves | laberinto/src/main/java/app/labyrinth/model/Game.java:198-230 | with the corrected scan the search solves the example maze, and its route leads from the player to the end |

## Left out

- File reading and writing are not modelled:
  - `LabyrinthFileManager`;
  - the file chooser and path handling of `LabyrinthMap.setInitialMap` and `App.saveMap`;
  - the `IOException` paths.
  
  The map enters as its list of lines, and `saveMap` leaves as the list of lines it would write.
- The Swing user interface and its dialogs (`App`, except the marking loop of `saveMap`) are not
  modelled.
- `LocalTime` measurements and logging in `Game` are not modelled. They do not influence any
  result.
- `Map.java` and `IntersectionTreeNode` are not part of this model. `Game` does not use them.
- The `Game` constructor that takes a file path loads the map itself. Here
  `Games.Game.constructor` is given a map already loaded by `Labyrinth.LabyrinthMap.Load`, and
  the file access is left out.
- `LabyrinthMap.getCoordinateOfElement` is called by `Game` and by the tests, but is not defined
  in the source; `getElementCoordinates` is. The model has one operation for both
  (`Labyrinth.Locate`).
- `getSurroundingElements` returns a `HashMap`, and `getPossibleCoordinatesToGo` iterates over its
  key set. The model fixes that iteration order to the map's `directions` array order. `HashMap`
  order is unspecified, and the order only matters for ties in the distance to the end.
- `MathUtils.roundDoubleToOneDecimalDigit` and floating point are not modelled. Times are exact integers in
  tenths, which is what the rounding aims at.
- The state a failed search leaves behind is not modelled. `Games.Agrees` fixes the game's
  fields only when the operation succeeds. In the code, `calculateRoute` sets `playerCoordinate`
  (Game.java:208) before it looks up the end. A failing move may also have backtracked already,
  cutting the route and striking intersections, before the `GameException` of Game.java:374.
- `Labyrinth.ParseMap`: counts a line's columns in Unicode characters. Java counts them in UTF-16
  code units (`length()` and `toCharArray()`, LabyrinthMap.java:155 and :161). So a line holding
  a character outside the Basic Multilingual Plane has one more column in Java than here.
- `Games.Game.MoveEfficiently`: the retry after a backtrack is a recursive call in the code
  (Game.java:291-292), one stack frame per consecutive backtrack. A long enough chain of dead
  ends therefore ends in a `StackOverflowError` in Java. The model has no stack limit.
- Java `int` overflow is not modelled: coordinates, route lengths and times are unbounded
  integers.
- `Elements.Element.Representation`: returns the characters as a value. The source hands out its
  internal mutable array, and the aliasing this allows is not modelled.
- The test fixtures that read maze files from the test resources (`MapTests`,
  `GameCalculateRouteTests`) need files that are not part of this model. Their properties are
  stated for every map instead: `LocateFindsFirst`, `SurroundingElements`,
  `CalculatedRouteIsValid`.

## Findings

| source | as written | input that shows it | evidently intended | confidence | as-written member | corrected member |
|---|---|---|---|---|---|---|
| laberinto/src/main/java/app/labyrinth/model/Game.java:352 | the backwards scan for an intersection runs while `i > 0`, so the start, at index 0, is never looked at, even when it was recorded as an intersection | the 7 by 5 maze `StartBranch.MazeText`: the player at (4, 1) and the end at (1, 1) are split by a wall, with a corridor round it along the bottom row. The closest move from the player leads into the dead end (3, 1), and the only other choices are at the start | the scan runs down to index 0 (`i >= 0`), so the search backtracks to the start and tries its other moves | not executed | StartBranch.AsWrittenGivesUp | StartBranch.CorrectedSolves |
