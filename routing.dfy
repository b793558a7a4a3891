/** The route search as values: a depth-first walk that always takes the open, unexplored
    neighbour closest to the end, remembers the squares where it had a choice, and on a dead end
    cuts the route back to the latest such square. Each function below is the meaning of one
    step of the `Game` class; the lemmas are the guarantees of the search. */
module Routing {
  import opened Results
  import opened Coordinates
  import opened Directions
  import opened Elements
  import opened Labyrinth

  /** The search's working state: the route so far, every square entered on the way
      (`recognition`), the squares that offered a choice with the moves noted there
      (`intersections`), and where the player stands. */
  datatype RouteState = RouteState(
    route: seq<Coordinate>,
    recognition: seq<Coordinate>,
    intersections: map<Coordinate, seq<Coordinate>>,
    playerCoordinate: Coordinate)

  /** The state of a game that has not searched yet. */
  const Unsearched := RouteState([], [], map[], Coordinate(0, 0))

  predicate Distinct<T(==)>(s: seq<T>)
  {
    forall i, j :: 0 <= i < j < |s| ==> s[i] != s[j]
  }

  function Abs(n: int): nat
  {
    if n < 0 then -n else n
  }

  // ---------------------------------------------------------------- choosing a move

  /** The heuristic distance `||ey| - |cy|| + ||ex| - |cx||`. It never exceeds the Manhattan
      distance, and on the non-negative coordinates of a map it is the Manhattan distance. */
  function DirectDistanceToEnd(c: Coordinate, end: Coordinate): (d: nat)
    ensures d <= Abs(end.x - c.x) + Abs(end.y - c.y)
    ensures 0 <= c.x && 0 <= c.y && 0 <= end.x && 0 <= end.y ==>
      d == Abs(end.x - c.x) + Abs(end.y - c.y)
  {
    Abs(Abs(end.y) - Abs(c.y)) + Abs(Abs(end.x) - Abs(c.x))
  }

  /** An open square next to the player that the search has not entered yet. */
  predicate IsCandidate(g: Grid, player: Coordinate, recognition: seq<Coordinate>, c: Coordinate)
  {
    Adjacent(player, c) && InBounds(g, c) && At(g, c) != Obstacle && c !in recognition
  }

  /** The squares in directions `ds`, in that order, that are not walls and not yet entered. */
  function Candidates(ds: seq<MovementDirection>, around: map<MovementDirection, Element>,
                      player: Coordinate, recognition: seq<Coordinate>): (cs: seq<Coordinate>)
    requires forall d :: d in ds ==> d in around
    ensures |cs| <= |ds|
    ensures forall c :: c in cs ==> c !in recognition
    ensures forall d :: d in ds && around[d] != Obstacle && Neighbour(player, d) !in recognition ==>
      Neighbour(player, d) in cs
    ensures forall c :: c in cs ==> exists d :: d in ds && around[d] != Obstacle && Neighbour(player, d) == c
  {
    if ds == [] then []
    else
      var d := ds[0];
      var rest := Candidates(ds[1..], around, player, recognition);
      assert forall d' :: d' in ds[1..] ==> d' in ds;
      if around[d] != Obstacle && Neighbour(player, d) !in recognition then [Neighbour(player, d)] + rest
      else rest
  }

  /** The moves open to the player: exactly the candidate squares around it. Looking around
      a square on the edge of the map is an `OutOfBounds` failure. */
  function PossibleCoordinatesToGo(g: Grid, player: Coordinate, recognition: seq<Coordinate>): (r: Result<seq<Coordinate>>)
    ensures r.Ok? <==> Surrounded(g, player)
    ensures r.Err? ==> r.error == OutOfBounds
  {
    var around :- SurroundingElements(g, player);
    EightDirections();
    Ok(Candidates(ScanOrder, around, player, recognition))
  }

  /** The candidates are exactly the open squares next to the player that were never entered. */
  lemma PossibleCoordinatesAreCandidates(g: Grid, player: Coordinate, recognition: seq<Coordinate>)
    requires Surrounded(g, player)
    ensures forall c :: c in PossibleCoordinatesToGo(g, player, recognition).value <==> IsCandidate(g, player, recognition, c)
  {
    var around := SurroundingElements(g, player).value;
    EightDirections();
    CandidatesAreOpenNeighbours(g, player, recognition, around, Candidates(ScanOrder, around, player, recognition));
  }

  lemma CandidatesAreOpenNeighbours(g: Grid, player: Coordinate, recognition: seq<Coordinate>,
                                    around: map<MovementDirection, Element>, cs: seq<Coordinate>)
    requires SurroundingElements(g, player) == Ok(around)
    requires (EightDirections(); cs == Candidates(ScanOrder, around, player, recognition))
    ensures forall c :: c in cs <==> IsCandidate(g, player, recognition, c)
  {
    EightDirections();
    forall c | IsCandidate(g, player, recognition, c)
      ensures c in cs
    {
      var d := DirectionTo(player, c);
      assert d in ScanOrder;
    }
  }

  /** The first value of `s` equal to `x`, as `List.indexOf` finds it. */
  function IndexOf<T(==)>(s: seq<T>, x: T): (k: nat)
    requires x in s
    ensures k < |s| && s[k] == x
    ensures x !in s[..k]
  {
    if s[0] == x then 0 else 1 + IndexOf(s[1..], x)
  }

  /** `reduce(acc, min)` over `s`: the smallest of `acc` and the values of `s`. */
  function FoldMin(acc: int, s: seq<int>): (m: int)
    ensures m == acc || m in s
    ensures m <= acc && forall x :: x in s ==> m <= x
    decreases |s|
  {
    if s == [] then acc
    else
      assert forall x :: x in s[1..] ==> x in s;
      assert forall x :: x in s ==> x == s[0] || x in s[1..];
      FoldMin(if acc < s[0] then acc else s[0], s[1..])
  }

  /** The candidate to move to: one at the smallest distance to the end, and among those the
      first in list order. */
  function OptimalWay(coordinatesToGo: seq<Coordinate>, end: Coordinate): (c: Coordinate)
    requires |coordinatesToGo| > 0
    ensures c in coordinatesToGo
  {
    var distances := Distances(coordinatesToGo, end);
    coordinatesToGo[IndexOf(distances, FoldMin(distances[0], distances))]
  }

  /** The distance to the end of each candidate, in list order. */
  function Distances(coordinatesToGo: seq<Coordinate>, end: Coordinate): (distances: seq<int>)
    ensures |distances| == |coordinatesToGo|
    ensures forall i :: 0 <= i < |distances| ==> distances[i] == DirectDistanceToEnd(coordinatesToGo[i], end)
  {
    seq(|coordinatesToGo|, i requires 0 <= i < |coordinatesToGo| => DirectDistanceToEnd(coordinatesToGo[i], end))
  }

  /** The chosen candidate is at the smallest distance to the end, and no candidate before it in
      the list is as close. */
  lemma OptimalWayIsFirstClosest(coordinatesToGo: seq<Coordinate>, end: Coordinate)
    requires |coordinatesToGo| > 0
    ensures forall o :: o in coordinatesToGo ==>
      DirectDistanceToEnd(OptimalWay(coordinatesToGo, end), end) <= DirectDistanceToEnd(o, end)
    ensures exists k :: (0 <= k < |coordinatesToGo| && coordinatesToGo[k] == OptimalWay(coordinatesToGo, end) &&
      forall j :: 0 <= j < k ==>
        DirectDistanceToEnd(coordinatesToGo[j], end) > DirectDistanceToEnd(OptimalWay(coordinatesToGo, end), end))
  {
    var distances := Distances(coordinatesToGo, end);
    var minDistance := FoldMin(distances[0], distances);
    var k := IndexOf(distances, minDistance);
    FirstMinimum(coordinatesToGo, end, distances, minDistance, k);
  }

  lemma FirstMinimum(coordinatesToGo: seq<Coordinate>, end: Coordinate, distances: seq<int>, minDistance: int, k: nat)
    requires |distances| == |coordinatesToGo|
    requires forall i :: 0 <= i < |distances| ==> distances[i] == DirectDistanceToEnd(coordinatesToGo[i], end)
    requires k < |distances| && distances[k] == minDistance && minDistance !in distances[..k]
    requires forall x :: x in distances ==> minDistance <= x
    ensures forall o :: o in coordinatesToGo ==> minDistance <= DirectDistanceToEnd(o, end)
    ensures forall j :: 0 <= j < k ==> DirectDistanceToEnd(coordinatesToGo[j], end) > minDistance
  {
    forall j | 0 <= j < k
      ensures DirectDistanceToEnd(coordinatesToGo[j], end) > minDistance
    {
      assert distances[j] == distances[..k][j];
      assert distances[j] in distances;
    }
    forall o | o in coordinatesToGo
      ensures minDistance <= DirectDistanceToEnd(o, end)
    {
      var i :| 0 <= i < |coordinatesToGo| && coordinatesToGo[i] == o;
      assert distances[i] in distances;
    }
  }

  // ---------------------------------------------------------------- backtracking

  /** The lowest route index the backwards scan for an intersection looks at. The source's loop
      runs while `i > 0`, so the start, at index 0, is never looked at. */
  const SourceScanFloor: nat := 1

  /** The scan that also looks at the start, which is an intersection too when it offered more
      than one move. */
  const CorrectedScanFloor: nat := 0

  /** The latest index in `floor..i` whose square is a recorded intersection. */
  function LastIntersection(route: seq<Coordinate>, ledger: map<Coordinate, seq<Coordinate>>, i: int, floor: nat): (r: Option<nat>)
    requires i < |route|
    decreases i
    ensures r.Some? ==> floor <= r.value <= i && route[r.value] in ledger
    ensures r.Some? ==> forall j :: r.value < j <= i ==> route[j] !in ledger
    ensures r.None? ==> forall j :: floor <= j <= i ==> route[j] !in ledger
  {
    if i < floor then None
    else if route[i] in ledger then Some(i)
    else LastIntersection(route, ledger, i - 1, floor)
  }

  /** `List.remove(Object)`: drops the first occurrence of `x`, if any. */
  function RemoveFirst<T(==)>(xs: seq<T>, x: T): (r: seq<T>)
    ensures |r| <= |xs|
  {
    if xs == [] then []
    else if xs[0] == x then xs[1..]
    else [xs[0]] + RemoveFirst(xs[1..], x)
  }

  /** Exactly one occurrence of `x` goes, when there is one; nothing else changes in number. */
  lemma {:induction false} RemoveFirstCounts<T>(xs: seq<T>, x: T)
    ensures multiset(RemoveFirst(xs, x)) == multiset(xs) - multiset{x}
  {
    if xs != [] {
      assert xs == [xs[0]] + xs[1..];
      if xs[0] != x {
        RemoveFirstCounts(xs[1..], x);
      }
    }
  }

  /** A list without `x` is left as it is. */
  lemma {:induction false} RemoveFirstAbsent<T>(xs: seq<T>, x: T)
    requires x !in xs
    ensures RemoveFirst(xs, x) == xs
  {
    if xs != [] {
      assert x !in xs[1..];
      RemoveFirstAbsent(xs[1..], x);
    }
  }

  /** What is removed is the first occurrence of `x`: the entries before and after it stay, in
      order. */
  lemma {:induction false} RemoveFirstOccurrence<T>(xs: seq<T>, x: T)
    requires x in xs
    ensures RemoveFirst(xs, x) == xs[..IndexOf(xs, x)] + xs[IndexOf(xs, x) + 1..]
  {
    if xs[0] == x {
      assert xs[..0] + xs[1..] == xs[1..];
    } else {
      var tail := xs[1..];
      assert x in tail;
      RemoveFirstOccurrence(tail, x);
      var k := IndexOf(tail, x);
      assert IndexOf(xs, x) == k + 1;
      assert RemoveFirst(xs, x) == [xs[0]] + RemoveFirst(tail, x);
      DropOneAfterHead(xs, k);
    }
  }

  /** Dropping entry `k` of the tail, then putting the head back, drops entry `k + 1`. */
  lemma DropOneAfterHead<T>(xs: seq<T>, k: nat)
    requires k + 1 < |xs|
    ensures [xs[0]] + (xs[1..][..k] + xs[1..][k + 1..]) == xs[..k + 1] + xs[k + 2..]
  {
    assert xs[..k + 1] == [xs[0]] + xs[1..][..k];
    assert xs[k + 2..] == xs[1..][k + 1..];
  }

  /** `Collection.removeAll`: keeps the entries of `xs` that do not occur in `ys`. */
  function RemoveAll(xs: seq<Coordinate>, ys: seq<Coordinate>): (r: seq<Coordinate>)
    ensures |r| <= |xs|
  {
    if xs == [] then []
    else (if xs[0] in ys then [] else [xs[0]]) + RemoveAll(xs[1..], ys)
  }

  /** What is kept is exactly what `xs` holds and `ys` does not. */
  lemma {:induction false} RemoveAllKeeps(xs: seq<Coordinate>, ys: seq<Coordinate>)
    ensures forall z :: z in RemoveAll(xs, ys) <==> z in xs && z !in ys
  {
    if xs != [] {
      RemoveAllKeeps(xs[1..], ys);
      assert xs == [xs[0]] + xs[1..];
    }
  }

  /** Removing every square of the tail from index `k` on leaves at most `k` squares; on a route
      without repeated squares it is the same as cutting the route at `k`. */
  lemma {:induction false} RemoveAllTail(xs: seq<Coordinate>, k: nat)
    requires k <= |xs|
    ensures |RemoveAll(xs, xs[k..])| <= k
    ensures Distinct(xs) ==> RemoveAll(xs, xs[k..]) == xs[..k]
  {
    KeepsAtMost(xs, xs[k..], k);
    if Distinct(xs) {
      KeepUntilCut(xs, xs[k..], k);
    }
  }

  lemma {:induction false} KeepsAtMost(xs: seq<Coordinate>, ys: seq<Coordinate>, k: nat)
    requires k <= |xs|
    requires forall i :: k <= i < |xs| ==> xs[i] in ys
    ensures |RemoveAll(xs, ys)| <= k
  {
    if xs != [] {
      if k == 0 {
        KeepsAtMost(xs[1..], ys, 0);
      } else {
        KeepsAtMost(xs[1..], ys, k - 1);
      }
    }
  }

  lemma {:induction false} KeepUntilCut(xs: seq<Coordinate>, ys: seq<Coordinate>, k: nat)
    requires k <= |xs|
    requires forall i :: 0 <= i < k ==> xs[i] !in ys
    requires forall i :: k <= i < |xs| ==> xs[i] in ys
    ensures RemoveAll(xs, ys) == xs[..k]
  {
    if xs != [] {
      if k == 0 {
        KeepUntilCut(xs[1..], ys, 0);
      } else {
        KeepUntilCut(xs[1..], ys, k - 1);
        assert xs[..k] == [xs[0]] + xs[1..][..k - 1];
      }
    }
  }

  /** A dead end: go back to the latest intersection on the route before the current square, at
      index `floor` or later (`SourceScanFloor` in the game), strike the square that led into the dead end from that intersection's
      list, and remove from the route every square from the one after the intersection on. With
      no such intersection the maze is given up with a `GameException`. The route always gets
      shorter; when it has no repeated squares it now ends at the intersection. */
  function Backtrack(s: RouteState, floor: nat): (r: Result<RouteState>)
    ensures r.Ok? ==> |r.value.route| < |s.route| && r.value.recognition == s.recognition
    ensures r.Err? ==> r.error == GameException
  {
    match LastIntersection(s.route, s.intersections, |s.route| - 2, floor)
    case None => Err(GameException)
    case Some(i) =>
      var lastIntersection := s.route[i];
      var deadEnd := s.route[i + 1];
      var deadEndWay := s.route[i + 1..];
      RemoveAllTail(s.route, i + 1);
      Ok(s.(route := RemoveAll(s.route, deadEndWay),
            intersections := s.intersections[lastIntersection :=
              RemoveFirst(s.intersections[lastIntersection], deadEnd)],
            playerCoordinate := lastIntersection))
  }

  /** Backtracking fails exactly when no square from index `floor` up to the one before the
      player's is a recorded intersection; with the source's floor the start never counts. */
  lemma BacktrackFails(s: RouteState, floor: nat)
    ensures Backtrack(s, floor).Err? <==> forall j :: floor <= j < |s.route| - 1 ==> s.route[j] !in s.intersections
  {
  }

  /** On a route without repeated squares, backtracking cuts the route right after the latest
      intersection before the player's square, moves the player there and strikes the square
      that led into the dead end from that intersection's list. */
  lemma BacktrackCuts(s: RouteState, floor: nat)
    requires Backtrack(s, floor).Ok? && Distinct(s.route)
    ensures var r, i := Backtrack(s, floor).value, |Backtrack(s, floor).value.route| - 1;
      && floor <= i
      && r.route == s.route[..i + 1]
      && r.playerCoordinate == s.route[i]
      && s.route[i] in s.intersections
      && (forall j :: i < j < |s.route| - 1 ==> s.route[j] !in s.intersections)
      && r.intersections ==
           s.intersections[s.route[i] := RemoveFirst(s.intersections[s.route[i]], s.route[i + 1])]
  {
    var i :| LastIntersection(s.route, s.intersections, |s.route| - 2, floor) == Some(i);
    BacktrackFrom(s, i, floor);
    RemoveAllTail(s.route, i + 1);
  }

  /** Backtracking by the intersection found at index `i`. */
  lemma BacktrackFrom(s: RouteState, i: nat, floor: nat)
    requires LastIntersection(s.route, s.intersections, |s.route| - 2, floor) == Some(i)
    ensures Backtrack(s, floor) == Ok(s.(route := RemoveAll(s.route, s.route[i + 1..]),
      intersections := s.intersections[s.route[i] := RemoveFirst(s.intersections[s.route[i]], s.route[i + 1])],
      playerCoordinate := s.route[i]))
  {
  }

  // ---------------------------------------------------------------- the search

  /** Records the player's square as an intersection, with its candidate moves, when it offers
      more than one move and is not recorded yet; an intersection's list is never replaced. */
  function NoteIntersection(s: RouteState, coordinatesToGo: seq<Coordinate>): (r: RouteState)
    ensures r.route == s.route && r.recognition == s.recognition && r.playerCoordinate == s.playerCoordinate
    ensures |coordinatesToGo| > 1 && s.playerCoordinate !in s.intersections ==>
      r.intersections == s.intersections[s.playerCoordinate := coordinatesToGo]
    ensures !(|coordinatesToGo| > 1 && s.playerCoordinate !in s.intersections) ==> r == s
  {
    if |coordinatesToGo| > 1 && s.playerCoordinate !in s.intersections
    then s.(intersections := s.intersections[s.playerCoordinate := coordinatesToGo])
    else s
  }

  /** Noting an intersection keeps every recorded list and records the player's square exactly
      when it offers more than one move. */
  lemma NoteIntersectionKeepsLists(s: RouteState, coordinatesToGo: seq<Coordinate>)
    ensures forall c :: c in s.intersections ==>
      c in NoteIntersection(s, coordinatesToGo).intersections &&
      NoteIntersection(s, coordinatesToGo).intersections[c] == s.intersections[c]
    ensures NoteIntersection(s, coordinatesToGo).intersections.Keys ==
      s.intersections.Keys + (if |coordinatesToGo| > 1 then {s.playerCoordinate} else {})
  {
  }

  /** Moves the player onto `next`, appending it to the route and to the explored squares: the
      player stands on the route's last square, the earlier squares and the intersections stay. */
  function StepTo(s: RouteState, next: Coordinate): (r: RouteState)
    ensures |r.route| == |s.route| + 1 && r.route[..|s.route|] == s.route
    ensures r.playerCoordinate == next == r.route[|r.route| - 1]
    ensures |r.recognition| == |s.recognition| + 1 && r.recognition[..|s.recognition|] == s.recognition
    ensures r.recognition[|s.recognition|] == next
    ensures r.intersections == s.intersections
  {
    s.(playerCoordinate := next, route := s.route + [next], recognition := s.recognition + [next])
  }

  /** One call of the engine's move: step onto the end if it is open next to the player;
      otherwise note a new intersection, step to the best candidate, or on a dead end backtrack
      and try again from the intersection. The result has either reached the end without
      entering anything new, or entered exactly one new square of the map. */
  function Advance(g: Grid, end: Coordinate, s: RouteState, floor: nat): (r: Result<RouteState>)
    decreases |s.route|
    ensures r.Ok? ==>
      || (r.value.recognition == s.recognition && end in r.value.route)
      || (&& r.value.recognition == s.recognition + [r.value.playerCoordinate]
          && r.value.playerCoordinate !in s.recognition
          && InBounds(g, r.value.playerCoordinate))
    ensures r.Err? ==> r.error == GameException || r.error == OutOfBounds
  {
    var coordinatesToGo :- PossibleCoordinatesToGo(g, s.playerCoordinate, s.recognition);
    if end in coordinatesToGo then
      Ok(s.(route := s.route + [end]))
    else
      var s1 := NoteIntersection(s, coordinatesToGo);
      if |coordinatesToGo| > 0 then
        Ok(StepTo(s1, OptimalWay(coordinatesToGo, end)))
      else
        var s2 :- Backtrack(s1, floor);
        Advance(g, end, s2, floor)
  }

  /** A move onto the end, once the candidates hold it. */
  lemma AdvanceReachesEnd(g: Grid, end: Coordinate, s: RouteState, coordinatesToGo: seq<Coordinate>, floor: nat)
    requires PossibleCoordinatesToGo(g, s.playerCoordinate, s.recognition) == Ok(coordinatesToGo)
    requires end in coordinatesToGo
    ensures Advance(g, end, s, floor) == Ok(s.(route := s.route + [end]))
  {
  }

  /** A move forward, once the candidates are known and do not hold the end. */
  lemma AdvanceStepsForward(g: Grid, end: Coordinate, s: RouteState, coordinatesToGo: seq<Coordinate>, floor: nat)
    requires PossibleCoordinatesToGo(g, s.playerCoordinate, s.recognition) == Ok(coordinatesToGo)
    requires end !in coordinatesToGo && |coordinatesToGo| > 0
    ensures Advance(g, end, s, floor) == Ok(StepTo(NoteIntersection(s, coordinatesToGo), OptimalWay(coordinatesToGo, end)))
  {
  }

  /** A move from a dead end: backtrack, then move again from the intersection. */
  lemma AdvanceBacktracks(g: Grid, end: Coordinate, s: RouteState, floor: nat)
    requires PossibleCoordinatesToGo(g, s.playerCoordinate, s.recognition) == Ok([])
    ensures Backtrack(s, floor).Err? ==> Advance(g, end, s, floor) == Err(GameException)
    ensures Backtrack(s, floor).Ok? ==> Advance(g, end, s, floor) == Advance(g, end, Backtrack(s, floor).value, floor)
  {
  }

  /** Every square of the map. */
  function AllSquares(g: Grid): set<Coordinate>
  {
    set y, x | 0 <= y < |g| && 0 <= x < |g[y]| :: Coordinate(x, y)
  }

  /** The squares entered so far, as a set. */
  function Explored(s: RouteState): set<Coordinate>
  {
    set c | c in s.recognition
  }

  /** How many squares of the map have not been entered yet. */
  function Unexplored(g: Grid, s: RouteState): nat
  {
    |AllSquares(g) - Explored(s)|
  }

  /** Entering one more square of the map leaves fewer squares to explore. */
  lemma ExploringShrinks(g: Grid, s: RouteState, s': RouteState)
    requires s'.recognition == s.recognition + [s'.playerCoordinate]
    requires s'.playerCoordinate !in s.recognition && InBounds(g, s'.playerCoordinate)
    ensures Unexplored(g, s') < Unexplored(g, s)
  {
    var c := s'.playerCoordinate;
    assert c in AllSquares(g) - Explored(s);
    assert AllSquares(g) - Explored(s') == (AllSquares(g) - Explored(s)) - {c};
  }

  /** The search loop: move until the end is on the route. It stops because every move either
      reaches the end or enters a square of the map never entered before. */
  function Explore(g: Grid, end: Coordinate, s: RouteState, floor: nat): (r: Result<RouteState>)
    decreases Unexplored(g, s), if end in s.route then 0 else 1
    ensures r.Ok? ==> end in r.value.route
    ensures r.Err? ==> r.error == GameException || r.error == OutOfBounds
  {
    if end in s.route then Ok(s)
    else
      var s' :- Advance(g, end, s, floor);
      if end in s'.route then Ok(s')
      else
        ExploringShrinks(g, s, s');
        Explore(g, end, s', floor)
  }

  /** One turn of the search loop: a failed move ends the search with its error; otherwise the
      search goes on from the new state, which either entered a new square of the map or, having
      entered none, holds the end. */
  lemma ExploreStep(g: Grid, end: Coordinate, s: RouteState, floor: nat)
    requires end !in s.route
    ensures Advance(g, end, s, floor).Err? ==> Explore(g, end, s, floor) == Err(Advance(g, end, s, floor).error)
    ensures Advance(g, end, s, floor).Ok? ==> Explore(g, end, s, floor) == Explore(g, end, Advance(g, end, s, floor).value, floor)
    ensures Advance(g, end, s, floor).Ok? ==>
      var s' := Advance(g, end, s, floor).value;
      Unexplored(g, s') < Unexplored(g, s) || (Unexplored(g, s') == Unexplored(g, s) && end in s'.route)
  {
    if Advance(g, end, s, floor).Ok? {
      var s' := Advance(g, end, s, floor).value;
      if s'.recognition == s.recognition {
        assert Explored(s') == Explored(s) && end in s'.route;
      } else {
        ExploringShrinks(g, s, s');
      }
    }
  }

  /** The whole route calculation from the state `s0`: locate the player and the end, start
      the route and the explored squares at the player, clear the intersections and explore. */
  function CalculatedRoute(g: Grid, s0: RouteState, floor: nat): (r: Result<RouteState>)
    ensures Locate(g, Player).Err? || Locate(g, End).Err? ==> r == Err(MapException)
    ensures r.Ok? ==> Locate(g, End).Ok? && Locate(g, End).value in r.value.route
    ensures r.Err? ==> r.error in {MapException, GameException, OutOfBounds}
  {
    var start :- Locate(g, Player);
    var end :- Locate(g, End);
    Explore(g, end, RouteState(s0.route + [start], s0.recognition + [start], map[], start), floor)
  }

  // ---------------------------------------------------------------- what the search guarantees

  /** Consecutive squares of the route touch. */
  predicate Steps(route: seq<Coordinate>)
  {
    forall i :: 0 <= i < |route| - 1 ==> Adjacent(route[i], route[i + 1])
  }

  /** Every square of the route is an open square of the map. */
  predicate OpenSquares(g: Grid, route: seq<Coordinate>)
  {
    forall c :: c in route ==> InBounds(g, c) && At(g, c) != Obstacle
  }

  /** A route from `start` to `end` through open squares, one step at a time, never visiting a
      square twice. */
  predicate ValidRoute(g: Grid, route: seq<Coordinate>, start: Coordinate, end: Coordinate)
  {
    && |route| >= 2 && route[0] == start && route[|route| - 1] == end
    && Distinct(route) && Steps(route) && OpenSquares(g, route)
  }

  /** The invariant of the search while the end has not been reached. */
  predicate Searching(g: Grid, start: Coordinate, end: Coordinate, s: RouteState)
  {
    && |s.route| >= 1 && s.route[0] == start
    && s.playerCoordinate == s.route[|s.route| - 1]
    && Distinct(s.route) && Steps(s.route) && OpenSquares(g, s.route)
    && (forall c :: c in s.route ==> c in s.recognition)
    && end !in s.recognition
  }

  /** Cutting the route back to an intersection keeps the invariant. */
  lemma BacktrackKeepsSearching(g: Grid, start: Coordinate, end: Coordinate, s: RouteState, floor: nat)
    requires Searching(g, start, end, s) && Backtrack(s, floor).Ok?
    ensures Searching(g, start, end, Backtrack(s, floor).value)
  {
    var s' := Backtrack(s, floor).value;
    BacktrackCuts(s, floor);
    assert forall c :: c in s'.route ==> c in s.route;
  }

  /** Stepping onto the end, open next to the player, completes a valid route. */
  lemma ReachingEndCompletes(g: Grid, start: Coordinate, end: Coordinate, s: RouteState)
    requires Searching(g, start, end, s)
    requires IsCandidate(g, s.playerCoordinate, s.recognition, end)
    ensures ValidRoute(g, s.route + [end], start, end)
  {
    var route := s.route + [end];
    assert end !in s.route;
    assert forall c :: c in route ==> c in s.route || c == end;
  }

  /** Stepping onto a candidate other than the end keeps the invariant. */
  lemma SteppingKeepsSearching(g: Grid, start: Coordinate, end: Coordinate, s: RouteState, next: Coordinate)
    requires Searching(g, start, end, s)
    requires IsCandidate(g, s.playerCoordinate, s.recognition, next) && next != end
    ensures Searching(g, start, end,
      s.(playerCoordinate := next, route := s.route + [next], recognition := s.recognition + [next]))
  {
    var route := s.route + [next];
    assert next !in s.route;
    assert forall c :: c in route ==> c in s.route || c == next;
  }

  /** One move keeps the invariant, or completes a valid route; on a bordered map it can only
      fail by giving up. */
  lemma {:induction false} AdvanceKeepsSearching(g: Grid, start: Coordinate, end: Coordinate, s: RouteState, floor: nat)
    requires Searching(g, start, end, s)
    decreases |s.route|
    ensures Advance(g, end, s, floor).Ok? && end in Advance(g, end, s, floor).value.route ==>
      ValidRoute(g, Advance(g, end, s, floor).value.route, start, end)
    ensures Advance(g, end, s, floor).Ok? && end !in Advance(g, end, s, floor).value.route ==>
      Searching(g, start, end, Advance(g, end, s, floor).value)
    ensures Bordered(g) && Advance(g, end, s, floor).Err? ==> Advance(g, end, s, floor).error == GameException
  {
    var player := s.playerCoordinate;
    if Bordered(g) {
      OpenSquaresAreSurrounded(g, player);
    }
    var cands := PossibleCoordinatesToGo(g, player, s.recognition);
    if cands.Ok? {
      var coordinatesToGo := cands.value;
      PossibleCoordinatesAreCandidates(g, player, s.recognition);
      if end in coordinatesToGo {
        assert Advance(g, end, s, floor) == Ok(s.(route := s.route + [end]));
        ReachingEndCompletes(g, start, end, s);
      } else {
        var s1 := if |coordinatesToGo| > 1 && player !in s.intersections
                  then s.(intersections := s.intersections[player := coordinatesToGo])
                  else s;
        assert Searching(g, start, end, s1);
        if |coordinatesToGo| > 0 {
          var next := OptimalWay(coordinatesToGo, end);
          assert Advance(g, end, s, floor) ==
            Ok(s1.(playerCoordinate := next, route := s1.route + [next], recognition := s1.recognition + [next]));
          SteppingKeepsSearching(g, start, end, s1, next);
        } else if Backtrack(s1, floor).Ok? {
          var s2 := Backtrack(s1, floor).value;
          assert Advance(g, end, s, floor) == Advance(g, end, s2, floor);
          BacktrackKeepsSearching(g, start, end, s1, floor);
          AdvanceKeepsSearching(g, start, end, s2, floor);
        } else {
          assert Advance(g, end, s, floor) == Err(GameException);
        }
      }
    } else {
      assert Advance(g, end, s, floor) == Err(OutOfBounds);
    }
  }

  /** The search loop ends with a valid route, or fails; on a bordered map it can only fail by
      giving up. */
  lemma {:induction false} ExploreFindsValidRoute(g: Grid, start: Coordinate, end: Coordinate, s: RouteState, floor: nat)
    requires Searching(g, start, end, s)
    decreases Unexplored(g, s)
    ensures Explore(g, end, s, floor).Ok? ==> ValidRoute(g, Explore(g, end, s, floor).value.route, start, end)
    ensures Bordered(g) && Explore(g, end, s, floor).Err? ==> Explore(g, end, s, floor).error == GameException
  {
    assert end !in s.route;
    AdvanceKeepsSearching(g, start, end, s, floor);
    var r := Advance(g, end, s, floor);
    if r.Ok? && end !in r.value.route {
      ExploringShrinks(g, s, r.value);
      ExploreFindsValidRoute(g, start, end, r.value, floor);
    }
  }

  /** On a fresh game the calculated route goes from the player to the end through open squares,
      one step at a time, with no square twice. A map without a player or an end fails with a
      `MapException`; on a bordered map no other failure than giving up is possible. */
  lemma CalculatedRouteIsValid(g: Grid, floor: nat)
    ensures CalculatedRoute(g, Unsearched, floor).Ok? ==>
      ValidRoute(g, CalculatedRoute(g, Unsearched, floor).value.route, Locate(g, Player).value, Locate(g, End).value)
    ensures Locate(g, Player).Err? || Locate(g, End).Err? ==> CalculatedRoute(g, Unsearched, floor) == Err(MapException)
    ensures Bordered(g) && Locate(g, Player).Ok? && Locate(g, End).Ok? && CalculatedRoute(g, Unsearched, floor).Err? ==>
      CalculatedRoute(g, Unsearched, floor).error == GameException
  {
    var player, finish := Locate(g, Player), Locate(g, End);
    if player.Ok? && finish.Ok? {
      var start, end := player.value, finish.value;
      var s := RouteState([start], [start], map[], start);
      assert Unsearched.route + [start] == [start] && Unsearched.recognition + [start] == [start];
      assert CalculatedRoute(g, Unsearched, floor) == Explore(g, end, s, floor);
      StartIsSearching(g, start, end);
      ExploreFindsValidRoute(g, start, end, s, floor);
    } else {
      assert CalculatedRoute(g, Unsearched, floor) == Err(MapException);
    }
  }

  /** The search starts in its invariant: the route is the player's square, which is open and
      is not the end. */
  lemma StartIsSearching(g: Grid, start: Coordinate, end: Coordinate)
    requires InBounds(g, start) && At(g, start) == Player
    requires InBounds(g, end) && At(g, end) == End
    ensures Searching(g, start, end, RouteState([start], [start], map[], start))
  {
    assert start != end;
  }

  /** A player walled in on all eight sides is reported as having no route. */
  lemma EnclosedPlayerHasNoRoute(g: Grid, floor: nat)
    requires Locate(g, Player).Ok? && Locate(g, End).Ok?
    requires Surrounded(g, Locate(g, Player).value)
    requires forall d: MovementDirection :: At(g, Neighbour(Locate(g, Player).value, d)) == Obstacle
    ensures CalculatedRoute(g, Unsearched, floor) == Err(GameException)
  {
    var start, end := Locate(g, Player).value, Locate(g, End).value;
    var s := RouteState([start], [start], map[], start);
    var around := SurroundingElements(g, start).value;
    EightDirections();
    WalledInHasNoCandidates(ScanOrder, around, start, [start]);
    assert PossibleCoordinatesToGo(g, start, [start]) == Ok([]);
    assert Backtrack(s, floor) == Err(GameException);
    AdvanceBacktracks(g, end, s, floor);
    assert Unsearched.route + [start] == [start];
  }

  /** With a wall in every direction looked at, there is no candidate square. */
  lemma WalledInHasNoCandidates(ds: seq<MovementDirection>, around: map<MovementDirection, Element>,
                                player: Coordinate, recognition: seq<Coordinate>)
    requires forall d :: d in ds ==> d in around && around[d] == Obstacle
    ensures Candidates(ds, around, player, recognition) == []
  {
    if ds != [] {
      assert forall d :: d in ds[1..] ==> d in ds;
      WalledInHasNoCandidates(ds[1..], around, player, recognition);
    }
  }
}
