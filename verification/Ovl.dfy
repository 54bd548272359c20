/** Overlay graphics: drawn vertices become the canonical geometry, and disagreement with the symbol is flagged. */
module Ovl {
  import opened Seqs
  import opened Sidc
  import opened Geometry

  /** A vertex as OVL stores it, latitude first. */
  datatype Position = Position(lat: real, lon: real)

  datatype Shape = PointShape | LineShape | PolygonShape

  function Swap(positions: seq<Position>): (points: seq<Point>)
    ensures |points| == |positions|
    ensures forall i | 0 <= i < |points| :: points[i] == Point(positions[i].lon, positions[i].lat)
  {
    if positions == [] then [] else [Point(positions[0].lon, positions[0].lat)] + Swap(positions[1..])
  }

  /** First and last drawn vertex coincide. */
  predicate ClosedDrawing(positions: seq<Position>) {
    |positions| >= 1 && positions[0].lat == positions[|positions| - 1].lat
            && positions[0].lon == positions[|positions| - 1].lon
  }

  /** infer_actual_geometry */
  function InferActual(table: ClassTable, positions: seq<Position>, sidc: string): Shape {
    if |positions| <= 1 then PointShape
    else if |positions| == 2 then LineShape
    else if Classify(table, sidc) == Some(AREA) || ClosedDrawing(positions) then PolygonShape
    else LineShape
  }

  function ShapeClass(shape: Shape): GeometryClass {
    match shape
    case PointShape => POINT
    case LineShape => LINEAR
    case PolygonShape => AREA
  }

  datatype Resolved = Resolved(shape: Shape, sidcClass: Option<GeometryClass>, conflict: bool)

  /** resolve_geometry */
  function Resolve(table: ClassTable, positions: seq<Position>, sidc: string): Resolved {
    var actual := InferActual(table, positions, sidc);
    var sidcClass := Classify(table, sidc);
    Resolved(actual, sidcClass, sidcClass.Some? && sidcClass.value != ShapeClass(actual))
  }

  /** The geometry part of milbobject_to_cto_dict. */
  function Build(table: ClassTable, positions: seq<Position>, sidc: string): Geometry {
    var coords := Swap(positions);
    match Resolve(table, positions, sidc).shape
    case PointShape => PointGeometry(if coords != [] then Some(coords[0]) else None)
    case LineShape => LineString(coords)
    case PolygonShape => Polygon([CloseRing(coords)])
  }

  method MilbobjectGeometry(table: ClassTable, positions: seq<Position>, sidc: string)
    returns (geometry: Geometry, sidcClass: Option<GeometryClass>, conflict: bool)
    ensures geometry == Build(table, positions, sidc)
    ensures Resolve(table, positions, sidc).sidcClass == sidcClass
            && Resolve(table, positions, sidc).conflict == conflict
  {
    var resolved := Resolve(table, positions, sidc);
    var coords: seq<Point> := [];
    for i := 0 to |positions|
      invariant coords == Swap(positions)[..i]
    {
      coords := coords + [Point(positions[i].lon, positions[i].lat)];
    }
    assert coords == Swap(positions);
    match resolved.shape {
      case PointShape =>
        geometry := PointGeometry(if coords != [] then Some(coords[0]) else None);
      case LineShape =>
        geometry := LineString(coords);
      case PolygonShape =>
        var ring := coords;
        if ring != [] && ring[0] != ring[|ring| - 1] {
          ring := ring + [ring[0]];
        }
        geometry := Polygon([ring]);
    }
    sidcClass, conflict := resolved.sidcClass, resolved.conflict;
  }

  lemma {:induction false} SwapKeepsClosed(positions: seq<Position>)
    ensures Closed(Swap(positions)) <==> ClosedDrawing(positions)
  {
  }

  /** The vertices of a geometry built from one drawing. */
  function Vertices(g: Geometry): seq<Point> {
    match g
    case PointGeometry(at) => if at.Some? then [at.value] else []
    case LineString(points) => points
    case Polygon(rings) => Flatten(rings)
  }

  /** Drawn vertices are never dropped or reordered, only latitude and longitude change places; a polygon is one closed
      ring with at most one vertex added. */
  lemma {:induction false} VerticesKept(table: ClassTable, positions: seq<Position>, sidc: string)
    ensures var g := Build(table, positions, sidc);
            && Swap(positions) <= Vertices(g)
            && (g.Polygon? ==> |g.rings| == 1 && Closed(g.rings[0])
                               && |g.rings[0]| == |positions| + if ClosedDrawing(positions) then 0 else 1)
            && (!g.Polygon? ==> Vertices(g) == Swap(positions))
  {
    hide Classify;
    var g := Build(table, positions, sidc);
    var coords := Swap(positions);
    SwapKeepsClosed(positions);
    if g.Polygon? {
      RingClosed(coords);
      assert g.rings[1..] == [];
      assert Flatten(g.rings) == g.rings[0] + Flatten(g.rings[1..]);
      assert g.rings[0] + [] == g.rings[0];
    } else if |positions| == 1 {
      assert coords == [coords[0]];
    }
  }

  /** The kind of geometry for every drawing: up to one vertex a point; two a line; and more a polygon exactly if the
      symbol is an area's or the last vertex is where the first is. */
  lemma {:induction false} KindIff(table: ClassTable, positions: seq<Position>, sidc: string)
    ensures var g := Build(table, positions, sidc);
            var n := |positions|;
            var area := n >= 3 && (Classify(table, sidc) == Some(AREA) || positions[0] == positions[n - 1]);
            && (g.PointGeometry? <==> n <= 1)
            && (g.Polygon? <==> area)
            && (g.LineString? <==> n >= 2 && !area)
  {
    hide Classify;
  }

  /** The schema accepts what is built, except from no vertices at all or from a closed ring of three: that ring
      already ends where it starts and stays one vertex short. */
  lemma {:induction false} AcceptedIff(table: ClassTable, positions: seq<Position>, sidc: string)
    ensures Accepted(Build(table, positions, sidc)) <==>
            |positions| >= 1 && !(|positions| == 3 && ClosedDrawing(positions))
  {
    hide Classify;
    SwapKeepsClosed(positions);
    var g := Build(table, positions, sidc);
    if g.Polygon? {
      RingClosed(Swap(positions));
      assert forall ring | ring in g.rings :: ring == g.rings[0];
      assert g.rings[0] in g.rings;
    }
  }

  /** When exactly a graphic is flagged: its symbol has a class, and that class does not fit the number of vertices and
      whether the drawing is closed. An area symbol never conflicts with three vertices or more. */
  lemma {:induction false} ConflictIff(table: ClassTable, positions: seq<Position>, sidc: string)
    ensures var n := |positions|;
            var closed := ClosedDrawing(positions);
            Resolve(table, positions, sidc).conflict <==>
            match Classify(table, sidc)
            case None => false
            case Some(POINT) => n >= 2
            case Some(LINEAR) => n <= 1 || (n >= 3 && closed)
            case Some(AREA) => n <= 2
  {
    hide Classify;
  }
}
