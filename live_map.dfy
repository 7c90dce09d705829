/** The live map's simulator state: the bus positions it re-seeds whenever
    the active lines change and advances on every tick of its timer. The
    timer itself is not modelled: a tick is a call of `Tick`. */
module LiveMapState {
  import opened Simulation
  import opened Render

  class LiveMap<P> {
    /** The route catalogue, fixed for the life of the map. */
    const routes: map<string, seq<P>>
    /** The active lines the positions were last seeded from. */
    var activeLines: seq<string>
    /** `busPositions`. */
    var positions: seq<BusPosition>

    /** Every bus stands on a point of its route. */
    ghost predicate Valid()
      reads this
    {
      AllInBounds(routes, positions)
    }

    /** A map with no buses yet (`useState([])`). */
    constructor (routes: map<string, seq<P>>)
      ensures this.routes == routes && activeLines == [] && positions == []
      ensures Valid()
    {
      this.routes := routes;
      activeLines := [];
      positions := [];
    }

    /** The effect run when the active lines change: the whole fleet is
        replaced by the seeds of the new lines, whatever it was before. */
    method Seed(activeLines: seq<string>)
      modifies this
      ensures this.activeLines == activeLines
      ensures positions == SeedAll(routes, activeLines)
      ensures |positions| == 2 * HostCount(routes, activeLines)
      ensures Valid()
    {
      this.activeLines := activeLines;
      positions := SeedAll(routes, activeLines);
    }

    /** The interval callback: every bus moves one point along its route. */
    method Tick()
      modifies this`positions
      ensures positions == TickAll(routes, old(positions))
      ensures |positions| == |old(positions)|
      ensures old(Valid()) ==> Valid()
    {
      positions := TickAll(routes, positions);
    }

    /** `routeBuses`, the buses drawn on the map. */
    function Buses(): seq<Bus<P>>
      reads this
      requires Valid()
    {
      InBoundsReadable(routes, positions);
      Project(routes, positions)
    }

    /** The route polylines drawn on the map. */
    function RoutePolylines(): seq<Polyline<P>>
      reads this
    {
      Polylines(routes, activeLines)
    }

    /** The bus markers drawn on the map. */
    function BusMarkers(): seq<Marker<P>>
      reads this
      requires Valid()
    {
      InBoundsReadable(routes, positions);
      Markers(routes, positions)
    }
  }

  /** Line "20" with eight points and line "99" missing from the catalogue:
      the buses of "20" start at points 2 and 6 and stand at 5 and 1 after
      three ticks; activating the same lines again puts them back at 2 and 6. */
  method LineTwentyScenario()
  {
    var m := new LiveMap(map["20" := [0, 1, 2, 3, 4, 5, 6, 7]]);
    m.Seed(["20", "99"]);
    assert SeedAll(m.routes, ["99"]) == [];
    assert m.positions == SeedLine(m.routes, "20");
    assert m.positions[0].routeIndex == 2 && m.positions[1].routeIndex == 6;
    m.Tick();
    assert m.positions[0].routeIndex == 3 && m.positions[1].routeIndex == 7;
    m.Tick();
    assert m.positions[0].routeIndex == 4 && m.positions[1].routeIndex == 0;
    m.Tick();
    assert m.positions[0].routeIndex == 5 && m.positions[1].routeIndex == 1;
    m.Seed(["20", "99"]);
    assert m.positions[0].routeIndex == 2 && m.positions[1].routeIndex == 6;
  }

  /** With lines "20" and "99" active and only "20" in the catalogue, one
      polyline is drawn, for "20". */
  method LineNinetyNineScenario()
  {
    var m := new LiveMap(map["20" := [0, 1, 2, 3, 4, 5, 6, 7]]);
    m.Seed(["20", "99"]);
    PolylinePerDrawnLine(m.routes, m.activeLines);
    assert DrawnLines(m.routes, ["99"]) == [];
    assert DrawnLines(m.routes, m.activeLines) == ["20"];
    assert |m.RoutePolylines()| == 1 && m.RoutePolylines()[0].line == "20";
  }

  /** After seeding lines "20" and "99", the map shows the two buses of "20"
      at its points 2 and 6, each with a marker in line 20's orange. */
  method LineTwentyMarkers()
  {
    var m := new LiveMap(map["20" := [0, 1, 2, 3, 4, 5, 6, 7]]);
    m.Seed(["20", "99"]);
    assert SeedAll(m.routes, ["99"]) == [];
    assert m.positions == SeedLine(m.routes, "20");
    var ps := m.positions;
    assert Routed(m.routes, ps[1..]) == [ps[1]] by {
      assert ps[1..][1..] == [];
    }
    assert Routed(m.routes, ps) == ps;
    ProjectionKeepsRouted(m.routes, ps);
    MarkersOfPositions(m.routes, ps);
    assert |m.Buses()| == 2 && m.Buses()[0].point == 2 && m.Buses()[1].point == 6;
    assert |m.BusMarkers()| == 2;
    assert m.BusMarkers()[0].bus == m.Buses()[0] && m.BusMarkers()[1].bus == m.Buses()[1];
    assert m.BusMarkers()[0].color == "#FF9800" && m.BusMarkers()[1].color == "#FF9800";
  }
}
