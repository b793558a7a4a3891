/** The time the player needs to walk a route. Each square costs the current time per square;
    walking on in a straight line makes the player faster by one tenth per square, down to
    six tenths, and every turn resets the cost to ten tenths. All times are counted in tenths
    of the source's time unit, so the one-decimal rounding of the source is exact here. */
module Timing {
  import opened Results
  import opened Coordinates
  import opened Elements
  import opened Labyrinth

  /** Time per square at the start and after a turn (1.0). */
  const InitialVelocity := 10
  /** Lowest time per square, reached by going straight (0.6). */
  const MaxVelocity := 6
  /** Time per square saved by each further straight square (0.1). */
  const StraightAcceleration := 1

  /** The player's current time per square and the squares walked since the last turn. */
  datatype Pace = Pace(timeSpentPerSquare: int, movementsAfterATurn: int)

  /** The pace and the time accumulated after scanning a prefix of a route. */
  datatype Tally = Tally(pace: Pace, timeSpent: int)

  /** Three consecutive squares on one column or on one row. */
  predicate GoesStraight(first: Coordinate, previous: Coordinate, current: Coordinate)
  {
    (first.x == previous.x && previous.x == current.x) || (first.y == previous.y && previous.y == current.y)
  }

  /** The pace after stepping onto `current`: a turn resets it; going straight after more than
      two squares in the line speeds the player up by one tenth, never below the lowest time. */
  function ModifyVelocity(p: Pace, first: Coordinate, previous: Coordinate, current: Coordinate): (q: Pace)
    ensures !GoesStraight(first, previous, current) ==> q == Pace(InitialVelocity, 1)
    ensures GoesStraight(first, previous, current) ==> q.movementsAfterATurn == p.movementsAfterATurn
    ensures GoesStraight(first, previous, current) && p.timeSpentPerSquare >= MaxVelocity ==>
      MaxVelocity <= q.timeSpentPerSquare <= p.timeSpentPerSquare
    ensures GoesStraight(first, previous, current) && p.movementsAfterATurn <= 2 ==> q == p
    ensures GoesStraight(first, previous, current) && p.movementsAfterATurn > 2 && p.timeSpentPerSquare > MaxVelocity ==>
      q == Pace(p.timeSpentPerSquare - StraightAcceleration, p.movementsAfterATurn)
    ensures GoesStraight(first, previous, current) && p.timeSpentPerSquare <= MaxVelocity ==> q == p
  {
    if GoesStraight(first, previous, current) then
      if p.movementsAfterATurn > 2 && p.timeSpentPerSquare > MaxVelocity
      then p.(timeSpentPerSquare := p.timeSpentPerSquare - StraightAcceleration)
      else p
    else
      Pace(InitialVelocity, 1)
  }

  /** The tally after the first `n` squares of `route`. The first two squares cost the initial
      time each; every square after them costs between the lowest and the initial time. */
  function Scan(route: seq<Coordinate>, n: nat): (t: Tally)
    requires 2 <= n <= |route|
    ensures MaxVelocity <= t.pace.timeSpentPerSquare <= InitialVelocity
    ensures t.pace.movementsAfterATurn >= 1
    ensures 2 * InitialVelocity + MaxVelocity * (n - 2) <= t.timeSpent <= InitialVelocity * n
  {
    if n == 2 then Tally(Pace(InitialVelocity, 2), 2 * InitialVelocity)
    else
      var before := Scan(route, n - 1);
      var p := before.pace.(movementsAfterATurn := before.pace.movementsAfterATurn + 1);
      var q := ModifyVelocity(p, route[n - 3], route[n - 2], route[n - 1]);
      Tally(q, before.timeSpent + q.timeSpentPerSquare)
  }

  /** The time to walk `route`; a route of at most two squares costs two initial times. */
  function TimeSpent(route: seq<Coordinate>): (t: int)
    ensures |route| <= 2 ==> t == 2 * InitialVelocity
    ensures |route| >= 2 ==> 2 * InitialVelocity + MaxVelocity * (|route| - 2) <= t <= InitialVelocity * |route|
  {
    if |route| < 2 then 2 * InitialVelocity else Scan(route, |route|).timeSpent
  }

  /** The total time of a route on map `g`. The player is looked up first: a map without one is
      a `MapException`, and a route without its square a `GameException`. Then the end is looked
      up in the same way. */
  function TotalTimeSpent(g: Grid, route: seq<Coordinate>): (r: Result<int>)
    ensures r.Ok? <==> Locate(g, Player).Ok? && Locate(g, Player).value in route &&
                       Locate(g, End).Ok? && Locate(g, End).value in route
    ensures r.Ok? ==> r.value == TimeSpent(route)
    ensures Locate(g, Player).Err? ==> r == Err(MapException)
    ensures Locate(g, Player).Ok? && Locate(g, Player).value !in route ==> r == Err(GameException)
    ensures Locate(g, Player).Ok? && Locate(g, Player).value in route && Locate(g, End).Err? ==> r == Err(MapException)
    ensures (Locate(g, Player).Ok? && Locate(g, Player).value in route &&
             Locate(g, End).Ok? && Locate(g, End).value !in route) ==> r == Err(GameException)
    ensures r.Err? ==> r.error == GameException || r.error == MapException
  {
    var start :- Locate(g, Player);
    if start !in route then Err(GameException)
    else
      var end :- Locate(g, End);
      if end !in route then Err(GameException)
      else Ok(TimeSpent(route))
  }

  /** Every consecutive triple among the first `n` squares is on one line. */
  predicate StraightFor(route: seq<Coordinate>, n: nat)
    requires n <= |route|
  {
    forall i :: 2 <= i < n ==> GoesStraight(route[i - 2], route[i - 1], route[i])
  }

  /** The time of `n` squares walked in a straight line. */
  function StraightTime(n: nat): int
  {
    if n <= 2 then 2 * InitialVelocity
    else if n < 6 then StraightTime(n - 1) + 12 - n
    else 6 * n + 14
  }

  /** Walking straight, the player gains a tenth per square from the third one on, until the
      time per square reaches the lowest value: after `n` squares it costs `max(6, 12 - n)`. */
  lemma {:induction false} StraightLine(route: seq<Coordinate>, n: nat)
    requires 2 <= n <= |route| && StraightFor(route, n)
    ensures Scan(route, n).pace == Pace(if n >= 6 then MaxVelocity else 12 - n, n)
    ensures Scan(route, n).timeSpent == StraightTime(n)
  {
    if n > 2 {
      StraightLine(route, n - 1);
    }
  }

  /** After a turn the next square costs the initial time again. */
  lemma TurnResets(route: seq<Coordinate>, n: nat)
    requires 3 <= n <= |route| && !GoesStraight(route[n - 3], route[n - 2], route[n - 1])
    ensures Scan(route, n).pace == Pace(InitialVelocity, 1)
    ensures Scan(route, n).timeSpent == Scan(route, n - 1).timeSpent + InitialVelocity
  {
  }

  /** The route of the source's timing test. */
  const TimingFixture: seq<Coordinate> := [
    Coordinate(1, 1), Coordinate(1, 2), Coordinate(1, 3), Coordinate(1, 4),
    Coordinate(1, 5), Coordinate(1, 6), Coordinate(1, 7), Coordinate(1, 8),
    Coordinate(2, 8), Coordinate(3, 8), Coordinate(4, 8), Coordinate(5, 8),
    Coordinate(6, 8), Coordinate(6, 9), Coordinate(7, 9), Coordinate(7, 10)]

  /** The fixture takes 13.6: eight squares down the first column (6.2), a turn and five
      squares along row 8 (4.4), and three turns at full cost (3.0). */
  lemma TimingFixtureTakes136()
    ensures TimeSpent(TimingFixture) == 136
  {
    FixtureHead();
    FixtureMiddle();
    FixtureRow(TimingFixture);
    FixtureTail();
    FixtureTurns(TimingFixture);
  }

  /** The last five squares of the fixture: three turns in a row. */
  lemma FixtureTail()
    ensures |TimingFixture| == 16
    ensures TimingFixture[11..16] == [Coordinate(5, 8), Coordinate(6, 8), Coordinate(6, 9), Coordinate(7, 9), Coordinate(7, 10)]
  {
  }

  /** Three turns in a row cost the initial time each. */
  lemma FixtureTurns(route: seq<Coordinate>)
    requires |route| == 16
    requires route[11..16] == [Coordinate(5, 8), Coordinate(6, 8), Coordinate(6, 9), Coordinate(7, 9), Coordinate(7, 10)]
    ensures Scan(route, 16).timeSpent == Scan(route, 13).timeSpent + 30
  {
    var tail := route[11..16];
    assert route[11] == tail[0] && route[12] == tail[1] && route[13] == tail[2];
    assert route[14] == tail[3] && route[15] == tail[4];
    TurnResets(route, 14);
    TurnResets(route, 15);
    TurnResets(route, 16);
  }

  /** The first eight squares of the fixture lie on column 1. */
  lemma FixtureHead()
    ensures |TimingFixture| == 16
    ensures forall i :: 0 <= i < 8 ==> TimingFixture[i].x == 1
  {
  }

  /** Eight squares on one column take 6.2. */
  lemma FixtureColumn(route: seq<Coordinate>)
    requires |route| >= 8 && forall i :: 0 <= i < 8 ==> route[i].x == 1
    ensures Scan(route, 8) == Tally(Pace(6, 8), 62)
  {
    assert StraightFor(route, 8);
    StraightLine(route, 8);
  }

  /** The squares around the fixture's turn onto row 8. */
  lemma FixtureMiddle()
    ensures |TimingFixture| == 16
    ensures TimingFixture[6..13] ==
      [Coordinate(1, 7), Coordinate(1, 8), Coordinate(2, 8), Coordinate(3, 8), Coordinate(4, 8), Coordinate(5, 8), Coordinate(6, 8)]
  {
  }

  /** After eight squares down column 1, a turn onto row 8 and five squares along it, the
      player has sped up again: 10.6 in all. */
  lemma FixtureRow(route: seq<Coordinate>)
    requires |route| >= 13 && forall i :: 0 <= i < 8 ==> route[i].x == 1
    requires route[6..13] ==
      [Coordinate(1, 7), Coordinate(1, 8), Coordinate(2, 8), Coordinate(3, 8), Coordinate(4, 8), Coordinate(5, 8), Coordinate(6, 8)]
    ensures Scan(route, 13) == Tally(Pace(7, 5), 106)
  {
    var middle := route[6..13];
    assert route[6] == middle[0] && route[7] == middle[1] && route[8] == middle[2];
    assert route[9] == middle[3] && route[10] == middle[4];
    assert route[11] == middle[5] && route[12] == middle[6];
    FixtureColumn(route);
    assert Scan(route, 9) == Tally(Pace(10, 1), 72);
    assert Scan(route, 10) == Tally(Pace(10, 2), 82);
    assert Scan(route, 11) == Tally(Pace(9, 3), 91);
    assert Scan(route, 12) == Tally(Pace(8, 4), 99);
  }

  /** The fixture does not contain the end square (6, 6) the test's map reports, so on such a
      map the total time is refused with a `GameException`. */
  lemma TimingFixtureWithoutEnd(g: Grid)
    requires Locate(g, Player) == Ok(Coordinate(1, 1)) && Locate(g, End) == Ok(Coordinate(6, 6))
    ensures TotalTimeSpent(g, TimingFixture) == Err(GameException)
  {
    assert Coordinate(6, 6) !in TimingFixture;
  }
}
