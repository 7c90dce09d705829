/** What the live map draws, as a pure function of the catalogue, the active
    lines and the bus positions: one polyline per active line with a
    non-empty route, and one marker per bus whose route exists, each placed
    on the route point its index names. */
module Render {
  import opened Simulation
  import opened RouteColors

  datatype Option<T> = None | Some(value: T)

  /** A bus ready to draw (the source's `Bus`): the point stands for its
      latitude and longitude, copied from the route. */
  datatype Bus<P> = Bus(id: string, line: string, number: string, point: P)

  datatype Polyline<P> = Polyline(line: string, coordinates: seq<P>, strokeColor: string)

  datatype Marker<P> = Marker(bus: Bus<P>, color: string)

  /** `filter(x => x !== null)`: the present values, in order. */
  function Present<T>(os: seq<Option<T>>): (r: seq<T>)
    ensures |r| <= |os|
  {
    if os == [] then []
    else (if os[0].Some? then [os[0].value] else []) + Present(os[1..])
  }

  // ----- bus markers -----

  /** The projection reads `route[bus.routeIndex]` when the route exists,
      and then the point's coordinates: that index must be in range. */
  predicate Readable<P>(routes: map<string, seq<P>>, b: BusPosition)
  {
    b.line in routes ==> b.routeIndex < |routes[b.line]|
  }

  predicate AllReadable<P>(routes: map<string, seq<P>>, ps: seq<BusPosition>)
  {
    forall b <- ps :: Readable(routes, b)
  }

  /** A bus on a point of its route can be read. */
  lemma InBoundsReadable<P>(routes: map<string, seq<P>>, ps: seq<BusPosition>)
    requires AllInBounds(routes, ps)
    ensures AllReadable(routes, ps)
  {
  }

  /** The callback of the projection's `map`: null for a bus whose route is
      missing, otherwise the bus at its route point. */
  function Locate<P>(routes: map<string, seq<P>>, b: BusPosition): Option<Bus<P>>
    requires Readable(routes, b)
  {
    if b.line !in routes then None
    else Some(Bus(b.id, b.line, b.number, routes[b.line][b.routeIndex]))
  }

  function LocateEach<P>(routes: map<string, seq<P>>, ps: seq<BusPosition>): (r: seq<Option<Bus<P>>>)
    requires AllReadable(routes, ps)
    ensures |r| == |ps|
  {
    if ps == [] then [] else [Locate(routes, ps[0])] + LocateEach(routes, ps[1..])
  }

  /** `routeBuses`: map every position to a bus or null, then drop the nulls. */
  function Project<P>(routes: map<string, seq<P>>, ps: seq<BusPosition>): seq<Bus<P>>
    requires AllReadable(routes, ps)
  {
    Present(LocateEach(routes, ps))
  }

  /** The reference order of things: the positions whose route exists. */
  function Routed<P>(routes: map<string, seq<P>>, ps: seq<BusPosition>): (r: seq<BusPosition>)
    ensures forall b <- r :: b in ps && b.line in routes
  {
    if ps == [] then []
    else (if ps[0].line in routes then [ps[0]] else []) + Routed(routes, ps[1..])
  }

  /** The projection keeps exactly the positions whose route exists, in
      order, each placed on the point of its route its index names, with its
      id, line and number; so it never yields more buses than positions. */
  lemma {:induction false} ProjectionKeepsRouted<P>(routes: map<string, seq<P>>, ps: seq<BusPosition>)
    requires AllReadable(routes, ps)
    ensures var r, kept := Project(routes, ps), Routed(routes, ps);
      |r| == |kept| <= |ps| &&
      forall k :: 0 <= k < |kept| ==>
        r[k] == Bus(kept[k].id, kept[k].line, kept[k].number, routes[kept[k].line][kept[k].routeIndex])
  {
    if ps != [] {
      assert AllReadable(routes, ps[1..]) by {
        forall b <- ps[1..] ensures Readable(routes, b) {
          assert b in ps;
        }
      }
      ProjectionKeepsRouted(routes, ps[1..]);
      var os := LocateEach(routes, ps);
      assert os[1..] == LocateEach(routes, ps[1..]);
      assert Project(routes, ps) ==
        (if ps[0].line in routes then [Locate(routes, ps[0]).value] else []) + Project(routes, ps[1..]);
    }
  }

  /** A marker per projected bus, coloured by its line. */
  function Markers<P>(routes: map<string, seq<P>>, ps: seq<BusPosition>): (r: seq<Marker<P>>)
    requires AllReadable(routes, ps)
  {
    var buses := Project(routes, ps);
    seq(|buses|, k requires 0 <= k < |buses| => Marker(buses[k], MarkerColor(buses[k].line)))
  }

  /** One marker per position whose route exists, in order, on the route
      point of that position and in its line's marker colour; so every
      marker stands for such a position. */
  lemma MarkersOfPositions<P>(routes: map<string, seq<P>>, ps: seq<BusPosition>)
    requires AllReadable(routes, ps)
    ensures var ms, kept := Markers(routes, ps), Routed(routes, ps);
      |ms| == |kept| <= |ps| &&
      forall k :: 0 <= k < |kept| ==>
        ms[k] == Marker(Bus(kept[k].id, kept[k].line, kept[k].number, routes[kept[k].line][kept[k].routeIndex]),
                        MarkerColor(kept[k].line))
    ensures forall m <- Markers(routes, ps) :: exists b <- ps ::
      b.line in routes && b.routeIndex < |routes[b.line]| &&
      m.bus == Bus(b.id, b.line, b.number, routes[b.line][b.routeIndex]) &&
      m.color == MarkerColor(b.line)
  {
    ProjectionKeepsRouted(routes, ps);
    var kept := Routed(routes, ps);
    var ms := Markers(routes, ps);
    forall m <- ms ensures exists b <- ps ::
      b.line in routes && b.routeIndex < |routes[b.line]| &&
      m.bus == Bus(b.id, b.line, b.number, routes[b.line][b.routeIndex]) &&
      m.color == MarkerColor(b.line)
    {
      var k :| 0 <= k < |ms| && ms[k] == m;
      var b := kept[k];
      assert b in ps;
    }
  }

  // ----- route polylines -----

  /** A line's route is drawn when it exists and has at least one point. */
  predicate Drawable<P>(routes: map<string, seq<P>>, line: string)
  {
    line in routes && |routes[line]| > 0
  }

  /** The callback of the polylines' `map`: null unless the route is drawable. */
  function PolylineOf<P>(routes: map<string, seq<P>>, line: string): Option<Polyline<P>>
  {
    if Drawable(routes, line) then Some(Polyline(line, routes[line], PolylineColor(line))) else None
  }

  function PolylineEach<P>(routes: map<string, seq<P>>, lines: seq<string>): (r: seq<Option<Polyline<P>>>)
    ensures |r| == |lines|
  {
    if lines == [] then [] else [PolylineOf(routes, lines[0])] + PolylineEach(routes, lines[1..])
  }

  /** The polylines on the map, for the active lines in order. */
  function Polylines<P>(routes: map<string, seq<P>>, lines: seq<string>): seq<Polyline<P>>
  {
    Present(PolylineEach(routes, lines))
  }

  /** The active lines whose route is drawable, in order. */
  function DrawnLines<P>(routes: map<string, seq<P>>, lines: seq<string>): (r: seq<string>)
    ensures forall l <- r :: l in lines && Drawable(routes, l)
    ensures forall l <- lines :: Drawable(routes, l) ==> l in r
  {
    if lines == [] then []
    else (if Drawable(routes, lines[0]) then [lines[0]] else []) + DrawnLines(routes, lines[1..])
  }

  /** One polyline per active line with a non-empty route, in order, with
      the whole route as coordinates and the line's polyline colour. */
  lemma {:induction false} PolylinePerDrawnLine<P>(routes: map<string, seq<P>>, lines: seq<string>)
    ensures var r, drawn := Polylines(routes, lines), DrawnLines(routes, lines);
      |r| == |drawn| <= |lines| &&
      forall k :: 0 <= k < |drawn| ==>
        drawn[k] in routes && r[k] == Polyline(drawn[k], routes[drawn[k]], PolylineColor(drawn[k]))
  {
    if lines != [] {
      PolylinePerDrawnLine(routes, lines[1..]);
      var os := PolylineEach(routes, lines);
      assert os[1..] == PolylineEach(routes, lines[1..]);
      assert Polylines(routes, lines) ==
        (if Drawable(routes, lines[0]) then [PolylineOf(routes, lines[0]).value] else [])
        + Polylines(routes, lines[1..]);
    }
  }

  /** The edge between the two filters: an active line whose route has a
      single point gets its polyline, but after a re-seed no bus, so no
      marker, is on it. */
  lemma OnePointRoute<P>(routes: map<string, seq<P>>, lines: seq<string>, line: string)
    requires line in lines && line in routes && |routes[line]| == 1
    ensures exists p <- Polylines(routes, lines) :: p.line == line && p.coordinates == routes[line]
    ensures forall m <- Markers(routes, SeedAll(routes, lines)) :: m.bus.line != line
  {
    PolylinePerDrawnLine(routes, lines);
    var drawn := DrawnLines(routes, lines);
    assert line in drawn;
    var k :| 0 <= k < |drawn| && drawn[k] == line;
    assert Polylines(routes, lines)[k].line == line;
    var ps := SeedAll(routes, lines);
    assert AllReadable(routes, ps);
    MarkersOfPositions(routes, ps);
  }
}
