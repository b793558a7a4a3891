/** Drawing a solved maze: the text of the map with every square of the route replaced by the
    travelled mark '*', one line of text per row, each ending in a line break. */
module MapView {
  import opened Coordinates
  import opened Elements
  import opened Labyrinth

  /** The character that draws a travelled square. */
  const TravelledMark := '*'

  /** Line `i` of the map with the squares of `route` on that row drawn as travelled; every
      other character is kept. */
  function MarkLine(line: string, i: int, route: seq<Coordinate>): (r: string)
    ensures |r| == |line|
    ensures forall j :: 0 <= j < |line| ==> (r[j] == TravelledMark <==> Coordinate(j, i) in route || line[j] == TravelledMark)
    ensures forall j :: 0 <= j < |line| && Coordinate(j, i) !in route ==> r[j] == line[j]
  {
    seq(|line|, j requires 0 <= j < |line| => if Coordinate(j, i) in route then TravelledMark else line[j])
  }

  /** The map's lines with the route drawn on them. */
  function MarkedLines(lines: seq<string>, route: seq<Coordinate>): (r: seq<string>)
    ensures |r| == |lines|
    ensures forall i :: 0 <= i < |lines| ==> |r[i]| == |lines[i]|
  {
    seq(|lines|, i requires 0 <= i < |lines| => MarkLine(lines[i], i, route))
  }

  /** The lines written to the solved map's file: the marked lines, each with its line break. */
  function SolvedMap(lines: seq<string>, route: seq<Coordinate>): (r: seq<string>)
    ensures |r| == |lines|
    ensures forall i :: 0 <= i < |lines| ==> |r[i]| == |lines[i]| + 1 && r[i][|lines[i]|] == '\n'
  {
    seq(|lines|, i requires 0 <= i < |lines| => MarkLine(lines[i], i, route) + "\n")
  }

  /** Replaces the characters of the route line by line, through a character array per line,
      and puts each finished line, with its line break, back in its place. */
  method SaveMapLines(mapLines: seq<string>, route: seq<Coordinate>) returns (solved: seq<string>)
    ensures solved == SolvedMap(mapLines, route)
  {
    solved := mapLines;
    for i := 0 to |solved|
      invariant |solved| == |mapLines|
      invariant forall k :: 0 <= k < i ==> solved[k] == MarkLine(mapLines[k], k, route) + "\n"
      invariant forall k :: i <= k < |solved| ==> solved[k] == mapLines[k]
    {
      var text := solved[i];
      var line := new char[|text|](j requires 0 <= j < |text| => text[j]);
      for j := 0 to line.Length
        invariant forall k :: 0 <= k < j ==> line[k] == (if Coordinate(k, i) in route then TravelledMark else text[k])
        invariant forall k :: j <= k < line.Length ==> line[k] == text[k]
      {
        line[j] := if Coordinate(j, i) in route then TravelledMark else line[j];
      }
      assert line[..] == MarkLine(text, i, route);
      solved := solved[..i] + [line[..] + "\n"] + solved[i + 1..];
    }
    assert forall k :: 0 <= k < |solved| ==> solved[k] == SolvedMap(mapLines, route)[k];
  }

  /** A square is drawn travelled exactly when it is on the route or was drawn travelled
      already; every other character is the original one. */
  lemma SolvedSquares(lines: seq<string>, route: seq<Coordinate>, c: Coordinate)
    requires 0 <= c.y < |lines| && 0 <= c.x < |lines[c.y]|
    ensures SolvedMap(lines, route)[c.y][c.x] == TravelledMark <==> c in route || lines[c.y][c.x] == TravelledMark
    ensures c !in route ==> SolvedMap(lines, route)[c.y][c.x] == lines[c.y][c.x]
  {
    var line := MarkLine(lines[c.y], c.y, route);
    assert SolvedMap(lines, route)[c.y] == line + "\n";
  }

  /** With an empty route the initial map is written back unchanged, line by line. */
  lemma EmptyRouteKeepsMap(lines: seq<string>)
    ensures forall i :: 0 <= i < |lines| ==> SolvedMap(lines, [])[i] == lines[i] + "\n"
  {
    forall i | 0 <= i < |lines|
      ensures SolvedMap(lines, [])[i] == lines[i] + "\n"
    {
      assert MarkLine(lines[i], i, []) == lines[i];
      assert SolvedMap(lines, [])[i] == MarkLine(lines[i], i, []) + "\n";
    }
  }

  /** Squares of the route that lie outside the text change nothing. */
  lemma OutsideRouteKeepsMap(lines: seq<string>, route: seq<Coordinate>)
    requires forall c :: c in route ==> !(0 <= c.y < |lines| && 0 <= c.x < |lines[c.y]|)
    ensures MarkedLines(lines, route) == lines
  {
    forall i | 0 <= i < |lines|
      ensures MarkedLines(lines, route)[i] == lines[i]
    {
      assert MarkLine(lines[i], i, route) == lines[i];
    }
  }

  /** Read back as a map, the marked lines show the map unchanged except that every square of
      the route inside it is travelled. */
  lemma MarkedMapShowsRoute(lines: seq<string>, route: seq<Coordinate>)
    requires ParseMap(lines).Ok?
    ensures ParseMap(MarkedLines(lines, route)).Ok?
    ensures forall c :: InBounds(ParseMap(lines).value, c) ==>
      At(ParseMap(MarkedLines(lines, route)).value, c) ==
        (if c in route then Travelled else At(ParseMap(lines).value, c))
  {
    var marked := MarkedLines(lines, route);
    var g := ParseMap(lines).value;
    assert |marked[0]| == |lines[0]|;
    assert ParseMap(marked).Ok?;
    var h := ParseMap(marked).value;
    forall c | InBounds(g, c)
      ensures At(h, c) == (if c in route then Travelled else At(g, c))
    {
      assert marked[c.y] == MarkLine(lines[c.y], c.y, route);
      ElementOfCharCases(TravelledMark);
    }
  }
}
