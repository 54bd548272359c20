/** The geometry of a KML placemark: first recognized child, ring building, and one level of MultiGeometry. */
module Kml {
  import opened Seqs
  import opened Geometry

  /** An element by local name; `text` is its character data. */
  datatype Elem = Elem(tag: string, text: Option<string>, children: seq<Elem>)

  /** Parsing a coordinates text: the points' longitudes and latitudes, or None for a malformed tuple. */
  type CoordinateParser = string -> Option<seq<Point>>

  /** No recognized geometry; a geometry; a malformed coordinate tuple; or a geometry the schema refuses. */
  datatype Outcome = Nothing | Built(geometry: Geometry) | BadCoordinates | Refused

  // --- Looking up elements ---

  /** This one is among them, and none of the tags stands before it. */
  predicate IsFirst(es: seq<Elem>, e: Elem, tags: set<string>) {
    exists i | 0 <= i < |es| :: es[i] == e && forall j | 0 <= j < i :: es[j].tag !in tags
  }

  /** First direct child with the local name. */
  function DirectFind(children: seq<Elem>, name: string): (r: Option<Elem>)
    ensures r.Some? ==> r.value in children && r.value.tag == name && IsFirst(children, r.value, {name})
    ensures r.None? ==> forall c | c in children :: c.tag != name
  {
    if children == [] then None
    else if children[0].tag == name then Some(children[0])
    else DirectFind(children[1..], name)
  }

  /** The element and all its descendants with the local name, in document order. */
  function FindAll(e: Elem, name: string): seq<Elem>
    decreases e
  {
    (if e.tag == name then [e] else []) + FindAllIn(e.children, name)
  }

  function FindAllIn(es: seq<Elem>, name: string): seq<Elem>
    decreases es
  {
    if es == [] then [] else FindAll(es[0], name) + FindAllIn(es[1..], name)
  }

  /** An element before its children, these in their order. */
  function DocumentOrder(e: Elem): seq<Elem>
    decreases e
  {
    [e] + InDocumentOrder(e.children)
  }

  function InDocumentOrder(es: seq<Elem>): seq<Elem>
    decreases es
  {
    if es == [] then [] else DocumentOrder(es[0]) + InDocumentOrder(es[1..])
  }

  function Named(es: seq<Elem>, name: string): seq<Elem> {
    if es == [] then [] else (if es[0].tag == name then [es[0]] else []) + Named(es[1..], name)
  }

  lemma {:induction false} NamedJoin(xs: seq<Elem>, ys: seq<Elem>, name: string)
    ensures Named(xs + ys, name) == Named(xs, name) + Named(ys, name)
  {
    if xs == [] {
      assert xs + ys == ys;
    } else {
      assert (xs + ys)[1..] == xs[1..] + ys;
      NamedJoin(xs[1..], ys, name);
    }
  }

  /** Looking for a name finds the elements so named in document order, the root included. */
  lemma {:induction false} FindAllIs(e: Elem, name: string)
    ensures FindAll(e, name) == Named(DocumentOrder(e), name)
    decreases e, 1
  {
    NamedJoin([e], InDocumentOrder(e.children), name);
    assert Named([e], name) == if e.tag == name then [e] else [];
    FindAllInIs(e.children, name);
  }

  lemma {:induction false} FindAllInIs(es: seq<Elem>, name: string)
    ensures FindAllIn(es, name) == Named(InDocumentOrder(es), name)
    decreases es, 0
  {
    if es != [] {
      FindAllIs(es[0], name);
      FindAllInIs(es[1..], name);
      NamedJoin(DocumentOrder(es[0]), InDocumentOrder(es[1..]), name);
    }
  }

  /** The non-empty text of the coordinates child. */
  function CoordinatesOf(e: Elem): Option<string> {
    match DirectFind(e.children, "coordinates")
    case None => None
    case Some(c) => if c.text.Some? && c.text.value != "" then c.text else None
  }

  // --- Rings ---

  /** The coordinate text of a boundary, through its first LinearRing. */
  function RingText(boundary: Elem): Option<string> {
    var linear := FindAll(boundary, "LinearRing");
    if linear != [] then CoordinatesOf(linear[0]) else None
  }

  /** The boundaries of a polygon in the order they are read: the first outer one, then all inner ones. */
  function Boundaries(polygon: Elem): seq<Elem> {
    var outer := FindAll(polygon, "outerBoundaryIs");
    outer[..if outer == [] then 0 else 1] + FindAll(polygon, "innerBoundaryIs")
  }

  /** The rings drawn: the point lists of the boundaries that have at least three points, in order; None if a
      coordinate text is malformed. */
  function Drawn(parse: CoordinateParser, boundaries: seq<Elem>): Option<seq<seq<Point>>> {
    if boundaries == [] then Some([])
    else
      var n := |boundaries| - 1;
      match Drawn(parse, boundaries[..n])
      case None => None
      case Some(rings) =>
        match RingText(boundaries[n])
        case None => Some(rings)
        case Some(text) =>
          match parse(text)
          case None => None
          case Some(points) => Some(if |points| >= 3 then rings + [points] else rings)
  }

  function CloseAll(rings: seq<seq<Point>>): (closed: seq<seq<Point>>)
    ensures |closed| == |rings|
    ensures forall i | 0 <= i < |rings| :: closed[i] == CloseRing(rings[i])
  {
    if rings == [] then [] else CloseAll(rings[..|rings| - 1]) + [CloseRing(rings[|rings| - 1])]
  }

  // --- The placemark ---

  /** Constructing the model object runs the schema validator. */
  function Construct(g: Geometry): Outcome {
    if Accepted(g) then Built(g) else Refused
  }

  function FromPoint(parse: CoordinateParser, children: seq<Elem>): Outcome {
    match DirectFind(children, "Point")
    case None => Nothing
    case Some(e) =>
      match CoordinatesOf(e)
      case None => Nothing
      case Some(text) =>
        match parse(text)
        case None => BadCoordinates
        case Some(points) => if points != [] then Construct(PointGeometry(Some(points[0]))) else Nothing
  }

  function FromLine(parse: CoordinateParser, children: seq<Elem>): Outcome {
    match DirectFind(children, "LineString")
    case None => Nothing
    case Some(e) =>
      match CoordinatesOf(e)
      case None => Nothing
      case Some(text) =>
        match parse(text)
        case None => BadCoordinates
        case Some(points) => if |points| >= 2 then Construct(LineString(points)) else Nothing
  }

  function FromPolygon(parse: CoordinateParser, children: seq<Elem>): Outcome {
    match DirectFind(children, "Polygon")
    case None => Nothing
    case Some(e) =>
      match Drawn(parse, Boundaries(e))
      case None => BadCoordinates
      case Some(rings) => if rings != [] then Construct(Polygon(CloseAll(rings))) else Nothing
  }

  /** The first child of a MultiGeometry that has a recognized tag. */
  function FirstRecognized(children: seq<Elem>): (r: Option<Elem>)
    ensures r.Some? ==> r.value in children && r.value.tag in {"Point", "LineString", "Polygon"}
    ensures r.Some? ==> IsFirst(children, r.value, {"Point", "LineString", "Polygon"})
    ensures r.None? ==> forall c | c in children :: c.tag !in {"Point", "LineString", "Polygon"}
  {
    if children == [] then None
    else if children[0].tag in {"Point", "LineString", "Polygon"} then Some(children[0])
    else FirstRecognized(children[1..])
  }

  /** _placemark_geometry on a placemark with these children. A MultiGeometry is entered once, through a placemark that
      holds only its first recognized child. */
  function PlacemarkGeometry(parse: CoordinateParser, children: seq<Elem>): Outcome
    decreases DirectFind(children, "MultiGeometry").Some?
  {
    var point := FromPoint(parse, children);
    if !point.Nothing? then point
    else
      var line := FromLine(parse, children);
      if !line.Nothing? then line
      else
        var polygon := FromPolygon(parse, children);
        if !polygon.Nothing? then polygon
        else
          match DirectFind(children, "MultiGeometry")
          case None => Nothing
          case Some(multi) =>
            match FirstRecognized(multi.children)
            case None => Nothing
            case Some(child) =>
              assert DirectFind([child], "MultiGeometry").None?;
              PlacemarkGeometry(parse, [child])
  }

  /** The ring loop of the polygon branch: parse, close and append, boundary by boundary. */
  method CollectRings(parse: CoordinateParser, polygon: Elem) returns (rings: Option<seq<seq<Point>>>)
    ensures rings == match Drawn(parse, Boundaries(polygon))
                     case None => None
                     case Some(drawn) => Some(CloseAll(drawn))
  {
    hide FindAll, CoordinatesOf, Boundaries, CloseRing;
    var boundaries := Boundaries(polygon);
    var collected: seq<seq<Point>> := [];
    for i := 0 to |boundaries|
      invariant Drawn(parse, boundaries[..i]).Some?
      invariant collected == CloseAll(Drawn(parse, boundaries[..i]).value)
    {
      DrawnStep(parse, boundaries, i);
      var text := RingText(boundaries[i]);
      if text.Some? {
        var points := parse(text.value);
        if points.None? {
          DrawnStaysMalformed(parse, boundaries, i + 1);
          return None;
        }
        if |points.value| >= 3 {
          var ring := points.value;
          if ring[0] != ring[|ring| - 1] {
            ring := ring + [ring[0]];
          }
          assert ring == CloseRing(points.value) by { ClosingStep(points.value); }
          CloseOneMore(Drawn(parse, boundaries[..i]).value, points.value);
          collected := collected + [ring];
        }
      }
    }
    assert boundaries[..|boundaries|] == boundaries;
    rings := Some(collected);
  }

  /** _placemark_geometry: returns from the first branch that builds something. */
  method ExtractGeometry(parse: CoordinateParser, children: seq<Elem>) returns (r: Outcome)
    ensures r == PlacemarkGeometry(parse, children)
    decreases DirectFind(children, "MultiGeometry").Some?
  {
    hide CoordinatesOf, Boundaries, CloseAll, Accepted, IsFirst, FindAll;
    var point := DirectFind(children, "Point");
    if point.Some? && CoordinatesOf(point.value).Some? {
      var points := parse(CoordinatesOf(point.value).value);
      if points.None? {
        return BadCoordinates;
      }
      if points.value != [] {
        return Construct(PointGeometry(Some(points.value[0])));
      }
    }
    var line := DirectFind(children, "LineString");
    if line.Some? && CoordinatesOf(line.value).Some? {
      var points := parse(CoordinatesOf(line.value).value);
      if points.None? {
        return BadCoordinates;
      }
      if |points.value| >= 2 {
        return Construct(LineString(points.value));
      }
    }
    var polygon := DirectFind(children, "Polygon");
    if polygon.Some? {
      var rings := CollectRings(parse, polygon.value);
      if rings.None? {
        return BadCoordinates;
      }
      if rings.value != [] {
        return Construct(Polygon(rings.value));
      }
    }
    var multi := DirectFind(children, "MultiGeometry");
    if multi.Some? {
      var candidates := multi.value.children;
      for i := 0 to |candidates|
        invariant FirstRecognized(candidates) == FirstRecognized(candidates[i..])
      {
        assert candidates[i..][1..] == candidates[i + 1..];
        if candidates[i].tag in {"Point", "LineString", "Polygon"} {
          assert DirectFind([candidates[i]], "MultiGeometry").None?;
          r := ExtractGeometry(parse, [candidates[i]]);
          return;
        }
      }
    }
    return Nothing;
  }

  lemma {:induction false} ClosingStep(points: seq<Point>)
    requires points != []
    ensures CloseRing(points) == if points[0] != points[|points| - 1] then points + [points[0]] else points
  {
  }

  lemma {:induction false} CloseOneMore(rings: seq<seq<Point>>, points: seq<Point>)
    ensures CloseAll(rings + [points]) == CloseAll(rings) + [CloseRing(points)]
  {
    assert (rings + [points])[..|rings|] == rings;
  }

  lemma {:induction false} DrawnStep(parse: CoordinateParser, boundaries: seq<Elem>, i: nat)
    requires i < |boundaries|
    ensures Drawn(parse, boundaries[..i + 1]) ==
            match Drawn(parse, boundaries[..i])
            case None => None
            case Some(rings) =>
              match RingText(boundaries[i])
              case None => Some(rings)
              case Some(text) =>
                match parse(text)
                case None => None
                case Some(points) => Some(if |points| >= 3 then rings + [points] else rings)
  {
    assert boundaries[..i + 1][..i] == boundaries[..i];
  }

  lemma {:induction false} DrawnStaysMalformed(parse: CoordinateParser, boundaries: seq<Elem>, i: nat)
    requires i <= |boundaries| && Drawn(parse, boundaries[..i]) == None
    ensures Drawn(parse, boundaries) == None
    decreases |boundaries| - i
  {
    hide RingText;
    if i == |boundaries| {
      assert boundaries[..i] == boundaries;
    } else {
      DrawnStep(parse, boundaries, i);
      DrawnStaysMalformed(parse, boundaries, i + 1);
    }
  }

  // --- What comes out ---

  lemma {:induction false} DrawnLongEnough(parse: CoordinateParser, boundaries: seq<Elem>)
    requires Drawn(parse, boundaries).Some?
    ensures forall ring | ring in Drawn(parse, boundaries).value :: |ring| >= 3
  {
    hide RingText;
    if boundaries != [] {
      DrawnLongEnough(parse, boundaries[..|boundaries| - 1]);
    }
  }

  /** The geometry shows the points drawn below these children, in order: a point the first one, a line all of them, and
      a polygon one ring for each boundary with three points or more, outer and inner alike, closed by at most one
      more. */
  ghost predicate Shows(parse: CoordinateParser, children: seq<Elem>, g: Geometry) {
    match g
    case PointGeometry(p) =>
      var points := PointsOf(parse, DirectFind(children, "Point"));
      points != [] && p == Some(points[0])
    case LineString(line) => line == PointsOf(parse, DirectFind(children, "LineString"))
    case Polygon(rings) =>
      && DirectFind(children, "Polygon").Some?
      && Drawn(parse, Boundaries(DirectFind(children, "Polygon").value)).Some?
      && RingsShow(Drawn(parse, Boundaries(DirectFind(children, "Polygon").value)).value, rings)
  }

  function PointsOf(parse: CoordinateParser, e: Option<Elem>): seq<Point> {
    if e.None? || CoordinatesOf(e.value).None? || parse(CoordinatesOf(e.value).value).None? then []
    else parse(CoordinatesOf(e.value).value).value
  }

  predicate RingsShow(drawn: seq<seq<Point>>, rings: seq<seq<Point>>) {
    && |rings| == |drawn|
    && forall i | 0 <= i < |drawn| ::
         && drawn[i] <= rings[i]
         && |rings[i]| == |drawn[i]| + (if Closed(drawn[i]) then 0 else 1)
         && Closed(rings[i])
  }

  lemma {:induction false} PolygonRings(parse: CoordinateParser, children: seq<Elem>)
    ensures FromPolygon(parse, children).Built? ==> Shows(parse, children, FromPolygon(parse, children).geometry)
  {
    hide RingText, Boundaries, CloseRing, RingsShow;
    if FromPolygon(parse, children).Built? {
      var boundaries := Boundaries(DirectFind(children, "Polygon").value);
      DrawnLongEnough(parse, boundaries);
      ClosedRingsShow(Drawn(parse, boundaries).value);
    }
  }

  lemma {:induction false} ClosedRingsShow(drawn: seq<seq<Point>>)
    requires forall ring | ring in drawn :: |ring| >= 3
    ensures RingsShow(drawn, CloseAll(drawn))
  {
    hide CloseRing;
    forall i | 0 <= i < |drawn|
      ensures drawn[i] <= CloseRing(drawn[i]) && Closed(CloseRing(drawn[i]))
      ensures |CloseRing(drawn[i])| == |drawn[i]| + if Closed(drawn[i]) then 0 else 1
    {
      assert drawn[i] in drawn;
      RingClosed(drawn[i]);
    }
  }

  // --- The outcome, from the drawing alone ---

  /** The element is missing, has no coordinates, or fewer points than its geometry needs. */
  predicate TooFew(parse: CoordinateParser, e: Option<Elem>, least: nat) {
    || e.None? || CoordinatesOf(e.value).None?
    || (parse(CoordinatesOf(e.value).value).Some? && |parse(CoordinatesOf(e.value).value).value| < least)
  }

  predicate Malformed(parse: CoordinateParser, e: Option<Elem>) {
    e.Some? && CoordinatesOf(e.value).Some? && parse(CoordinatesOf(e.value).value).None?
  }

  predicate NoPointOrLine(parse: CoordinateParser, children: seq<Elem>) {
    TooFew(parse, DirectFind(children, "Point"), 1) && TooFew(parse, DirectFind(children, "LineString"), 2)
  }

  function RingsOf(parse: CoordinateParser, children: seq<Elem>): Option<seq<seq<Point>>> {
    match DirectFind(children, "Polygon")
    case None => Some([])
    case Some(polygon) => Drawn(parse, Boundaries(polygon))
  }

  /** A ring of three points that is already closed. */
  predicate ClosedTriangle(ring: seq<Point>) {
    |ring| == 3 && Closed(ring)
  }

  predicate DrawsNothing(parse: CoordinateParser, children: seq<Elem>) {
    NoPointOrLine(parse, children) && RingsOf(parse, children) == Some([])
  }

  /** Where a placemark's geometry comes from: its own children, unless they draw nothing; then the first recognized
      child of its MultiGeometry. */
  function Source(parse: CoordinateParser, children: seq<Elem>): seq<Elem> {
    match DirectFind(children, "MultiGeometry")
    case None => children
    case Some(multi) =>
      if DrawsNothing(parse, children) && FirstRecognized(multi.children).Some?
      then [FirstRecognized(multi.children).value] else children
  }

  /** The three branches in their order. */
  function Own(parse: CoordinateParser, children: seq<Elem>): Outcome {
    var point, line := FromPoint(parse, children), FromLine(parse, children);
    if !point.Nothing? then point else if !line.Nothing? then line else FromPolygon(parse, children)
  }

  lemma {:induction false} PointBranch(parse: CoordinateParser, children: seq<Elem>)
    ensures var e := DirectFind(children, "Point");
            && (FromPoint(parse, children).Nothing? <==> TooFew(parse, e, 1))
            && (FromPoint(parse, children).BadCoordinates? <==> Malformed(parse, e))
            && (FromPoint(parse, children).Built? ==> FromPoint(parse, children).geometry.PointGeometry?)
  {
    hide CoordinatesOf, DirectFind;
  }

  lemma {:induction false} LineBranch(parse: CoordinateParser, children: seq<Elem>)
    ensures var e := DirectFind(children, "LineString");
            && (FromLine(parse, children).Nothing? <==> TooFew(parse, e, 2))
            && (FromLine(parse, children).BadCoordinates? <==> Malformed(parse, e))
            && (FromLine(parse, children).Built? ==> FromLine(parse, children).geometry.LineString?)
  {
    hide CoordinatesOf, DirectFind;
  }

  lemma {:induction false} PolygonBranch(parse: CoordinateParser, children: seq<Elem>)
    ensures (FromPolygon(parse, children).Nothing? <==> RingsOf(parse, children) == Some([]))
    ensures (FromPolygon(parse, children).BadCoordinates? <==> RingsOf(parse, children) == None)
    ensures FromPolygon(parse, children).Built? ==> FromPolygon(parse, children).geometry.Polygon?
  {
    hide Drawn, Boundaries, DirectFind, CloseAll;
  }

  lemma {:induction false} PlacemarkIsOwn(parse: CoordinateParser, children: seq<Elem>)
    ensures PlacemarkGeometry(parse, children) == Own(parse, Source(parse, children))
  {
    hide FromPoint, FromLine, FromPolygon, TooFew, RingsOf;
    PointBranch(parse, children);
    LineBranch(parse, children);
    PolygonBranch(parse, children);
    if DrawsNothing(parse, children) && DirectFind(children, "MultiGeometry").Some? {
      var multi := DirectFind(children, "MultiGeometry").value;
      match FirstRecognized(multi.children)
      case None =>
      case Some(child) =>
        assert DirectFind([child], "MultiGeometry").None?;
    }
  }

  /** What a placemark comes to, for every drawing: nothing, malformed, refused, or a geometry of the first kind that is
      drawn, which the schema accepts and which shows the points of its source. */
  lemma {:induction false} PlacemarkOutcome(parse: CoordinateParser, children: seq<Elem>)
    ensures var r, source := PlacemarkGeometry(parse, children), Source(parse, children);
            var point, line := DirectFind(source, "Point"), DirectFind(source, "LineString");
            && (r.Nothing? <==> DrawsNothing(parse, source))
            && (r.BadCoordinates? <==>
                  || Malformed(parse, point)
                  || (TooFew(parse, point, 1) && Malformed(parse, line))
                  || (NoPointOrLine(parse, source) && RingsOf(parse, source) == None))
            && (r.Refused? <==>
                  && NoPointOrLine(parse, source) && RingsOf(parse, source).Some?
                  && exists ring :: ring in RingsOf(parse, source).value && ClosedTriangle(ring))
            && (r.Built? ==>
                  && Accepted(r.geometry) && Shows(parse, source, r.geometry)
                  && (r.geometry.PointGeometry? <==> !TooFew(parse, point, 1))
                  && (r.geometry.LineString? <==> TooFew(parse, point, 1) && !TooFew(parse, line, 2)))
  {
    hide FromPoint, FromLine, FromPolygon, TooFew, Shows, Source, Malformed, Accepted, ClosedTriangle,
         PlacemarkGeometry, DirectFind;
    var source := Source(parse, children);
    PlacemarkIsOwn(parse, children);
    PointBranch(parse, source);
    LineBranch(parse, source);
    PolygonBranch(parse, source);
    PointShows(parse, source);
    LineShows(parse, source);
    PolygonAccepted(parse, source);
    PolygonRings(parse, source);
    RefusedIff(parse, source);
    RingsAreDrawn(parse, source);
    TooFewNotMalformed(parse, DirectFind(source, "Point"), 1);
    TooFewNotMalformed(parse, DirectFind(source, "LineString"), 2);
  }

  lemma {:induction false} TooFewNotMalformed(parse: CoordinateParser, e: Option<Elem>, least: nat)
    ensures !(TooFew(parse, e, least) && Malformed(parse, e))
  {
  }

  lemma {:induction false} RingsAreDrawn(parse: CoordinateParser, children: seq<Elem>)
    ensures DirectFind(children, "Polygon").None? ==> RingsOf(parse, children) == Some([])
  {
  }

  lemma {:induction false} PointShows(parse: CoordinateParser, children: seq<Elem>)
    ensures !FromPoint(parse, children).Refused?
    ensures FromPoint(parse, children).Built? ==>
              Accepted(FromPoint(parse, children).geometry)
                      && Shows(parse, children, FromPoint(parse, children).geometry)
  {
  }

  lemma {:induction false} LineShows(parse: CoordinateParser, children: seq<Elem>)
    ensures !FromLine(parse, children).Refused?
    ensures FromLine(parse, children).Built? ==>
              Accepted(FromLine(parse, children).geometry) && Shows(parse, children, FromLine(parse, children).geometry)
  {
  }

  lemma {:induction false} PolygonAccepted(parse: CoordinateParser, children: seq<Elem>)
    ensures FromPolygon(parse, children).Built? ==> Accepted(FromPolygon(parse, children).geometry)
  {
  }

  lemma {:induction false} NothingDrawn(parse: CoordinateParser)
    ensures Drawn(parse, []) == Some([])
  {
  }

  lemma {:induction false} DrawnAppend(parse: CoordinateParser, front: seq<Elem>, rear: seq<Elem>)
    ensures Drawn(parse, front + rear) ==
            if Drawn(parse, front).None? || Drawn(parse, rear).None? then None
            else Some(Drawn(parse, front).value + Drawn(parse, rear).value)
  {
    hide RingText, Drawn;
    if rear == [] {
      NothingDrawn(parse);
      assert forall a: seq<seq<Point>> :: a + [] == a;
      assert front + rear == front;
    } else {
      var n := |rear| - 1;
      DrawnAppend(parse, front, rear[..n]);
      DrawnStep(parse, rear, n);
      DrawnStep(parse, front + rear, |front| + n);
      assert (front + rear)[..|front| + n] == front + rear[..n] && (front + rear)[..|front| + n + 1] == front + rear;
      assert rear[..n + 1] == rear && (front + rear)[|front| + n] == rear[n];
      assert forall a: seq<seq<Point>>, b, c :: (a + b) + [c] == a + (b + [c]);
    }
  }

  /** The points of the first outer boundary, none if it or its coordinates are missing. */
  function OuterPoints(parse: CoordinateParser, polygon: Elem): seq<Point> {
    var outer := FindAll(polygon, "outerBoundaryIs");
    if outer == [] || RingText(outer[0]).None? || parse(RingText(outer[0]).value).None? then []
    else parse(RingText(outer[0]).value).value
  }

  lemma {:induction false} OuterDrawn(parse: CoordinateParser, polygon: Elem)
    ensures var outer := FindAll(polygon, "outerBoundaryIs");
            var drawn := Drawn(parse, outer[..if outer == [] then 0 else 1]);
            var points := OuterPoints(parse, polygon);
            drawn.Some? ==> drawn.value == if |points| < 3 then [] else [points]
  {
    hide FindAll, RingText;
    var outer := FindAll(polygon, "outerBoundaryIs");
    NothingDrawn(parse);
    if outer != [] {
      DrawnStep(parse, outer, 0);
      assert outer[..0] == [] && outer[..1] == [outer[0]];
    }
  }

  /** A polygon consists of its outer ring, then its holes, if the outer boundary has three points. Exactly if it has
      fewer, the rings are those of the holes alone, and the first hole stands where the outer ring belongs. */
  lemma {:induction false} HoleTakesOuterPlace(parse: CoordinateParser, children: seq<Elem>)
    ensures FromPolygon(parse, children).Built? ==>
              var polygon := DirectFind(children, "Polygon").value;
              var rings := FromPolygon(parse, children).geometry.rings;
              var outer, holes := OuterPoints(parse, polygon), Drawn(parse, FindAll(polygon, "innerBoundaryIs"));
              && holes.Some?
              && (RingsShow(holes.value, rings) <==> |outer| < 3)
              && (RingsShow([outer] + holes.value, rings) <==> |outer| >= 3)
  {
    hide RingText, FindAll, CloseAll, Drawn, OuterPoints, Boundaries;
    if FromPolygon(parse, children).Built? {
      var polygon := DirectFind(children, "Polygon").value;
      var rings := FromPolygon(parse, children).geometry.rings;
      PolygonRings(parse, children);
      BoundariesDrawn(parse, polygon);
    }
  }

  lemma {:induction false} BoundariesDrawn(parse: CoordinateParser, polygon: Elem)
    ensures Drawn(parse, Boundaries(polygon)).Some? ==>
              var points, holes := OuterPoints(parse, polygon), Drawn(parse, FindAll(polygon, "innerBoundaryIs"));
              && holes.Some?
              && Drawn(parse, Boundaries(polygon)).value == if |points| < 3 then holes.value else [points] + holes.value
  {
    hide RingText, FindAll, CloseAll, Drawn, OuterPoints;
    var outer, holes := FindAll(polygon, "outerBoundaryIs"), FindAll(polygon, "innerBoundaryIs");
    OuterDrawn(parse, polygon);
    DrawnAppend(parse, outer[..if outer == [] then 0 else 1], holes);
    assert Drawn(parse, holes).Some? ==> [] + Drawn(parse, holes).value == Drawn(parse, holes).value;
  }

  // --- A placemark whose hole becomes its outline ---

  const SQUARE := [Point(0.0, 0.0), Point(1.0, 0.0), Point(1.0, 1.0), Point(0.0, 1.0)]

  function Boundary(tag: string, text: string): Elem {
    Elem(tag, None, [Elem("LinearRing", None, [Elem("coordinates", Some(text), [])])])
  }

  function PolygonWith(outer: string, inner: string): Elem {
    Elem("Polygon", None, [Boundary("outerBoundaryIs", outer), Boundary("innerBoundaryIs", inner)])
  }

  lemma {:induction false} BoundaryHolds(tag: string, text: string, name: string)
    requires tag != "LinearRing" && text != "" && name !in {"LinearRing", "coordinates"}
    ensures FindAll(Boundary(tag, text), name) == if tag == name then [Boundary(tag, text)] else []
    ensures RingText(Boundary(tag, text)) == Some(text)
  {
    var coordinates := Elem("coordinates", Some(text), []);
    var linear := Elem("LinearRing", None, [coordinates]);
    assert FindAllIn([], name) == [] && FindAllIn([], "LinearRing") == [];
    assert FindAll(coordinates, name) == [] && FindAll(coordinates, "LinearRing") == [];
    assert FindAllIn([coordinates], name) == [] && FindAllIn([coordinates], "LinearRing") == [];
    assert FindAll(linear, name) == [] && FindAll(linear, "LinearRing") == [linear];
    assert FindAllIn([linear], name) == [] && FindAllIn([linear], "LinearRing") == [linear];
    assert DirectFind([coordinates], "coordinates") == Some(coordinates);
  }

  lemma {:induction false} PolygonHolds(outer: string, inner: string)
    requires outer != "" && inner != ""
    ensures Boundaries(PolygonWith(outer, inner)) ==
            [Boundary("outerBoundaryIs", outer), Boundary("innerBoundaryIs", inner)]
  {
    hide FindAll, Boundary;
    FoundIn(outer, inner, "outerBoundaryIs");
    FoundIn(outer, inner, "innerBoundaryIs");
    BoundaryHolds("outerBoundaryIs", outer, "outerBoundaryIs");
    BoundaryHolds("outerBoundaryIs", outer, "innerBoundaryIs");
    BoundaryHolds("innerBoundaryIs", inner, "outerBoundaryIs");
    BoundaryHolds("innerBoundaryIs", inner, "innerBoundaryIs");
  }

  lemma {:induction false} FoundIn(outer: string, inner: string, name: string)
    requires name != "Polygon"
    ensures FindAll(PolygonWith(outer, inner), name) ==
            FindAll(Boundary("outerBoundaryIs", outer), name) + FindAll(Boundary("innerBoundaryIs", inner), name)
  {
    hide FindAll, Boundary;
    FindAllSplits(PolygonWith(outer, inner), name);
    FindAllInTwo(Boundary("outerBoundaryIs", outer), Boundary("innerBoundaryIs", inner), name);
  }

  lemma {:induction false} FindAllSplits(e: Elem, name: string)
    ensures FindAll(e, name) == (if e.tag == name then [e] else []) + FindAllIn(e.children, name)
  {
  }

  lemma {:induction false} FindAllInTwo(a: Elem, b: Elem, name: string)
    ensures FindAllIn([a, b], name) == FindAll(a, name) + FindAll(b, name)
  {
    hide FindAll;
    assert [a, b][1..] == [b] && [b][1..] == [];
    assert FindAllIn([b], name) == FindAll(b, name) + FindAllIn([], name);
  }

  /** A polygon with two outer points and a hole of four is built, and the hole is its outline. */
  lemma {:induction false} HoleAsOutline(parse: CoordinateParser)
    requires parse("0,0 1,0") == Some([Point(0.0, 0.0), Point(1.0, 0.0)])
    requires parse("0,0 1,0 1,1 0,1") == Some(SQUARE)
    ensures PlacemarkGeometry(parse, [PolygonWith("0,0 1,0", "0,0 1,0 1,1 0,1")]) ==
            Built(Polygon([SQUARE + [SQUARE[0]]]))
  {
    hide Boundaries, FindAll, RingText, Boundary, CoordinatesOf, CloseAll, CloseRing, PolygonWith;
    var two, four := "0,0 1,0", "0,0 1,0 1,1 0,1";
    var polygon := PolygonWith(two, four);
    assert polygon.tag == "Polygon" by { Tagged(two, four); }
    var o, i := Boundary("outerBoundaryIs", two), Boundary("innerBoundaryIs", four);
    PolygonHolds(two, four);
    BoundaryHolds("outerBoundaryIs", two, "outerBoundaryIs");
    BoundaryHolds("innerBoundaryIs", four, "innerBoundaryIs");
    NothingDrawn(parse);
    DrawnStep(parse, [o, i], 0);
    DrawnStep(parse, [o, i], 1);
    assert [o, i][..0] == [] && [o, i][..2] == [o, i];
    assert Drawn(parse, [o, i][..1]) == Some([]);
    assert [] + [SQUARE] == [SQUARE];
    assert Drawn(parse, [o, i]) == Some([SQUARE]);
    CloseOneMore([], SQUARE);
    CloseNothing();
    ClosingStep(SQUARE);
    assert [] + [CloseRing(SQUARE)] == [CloseRing(SQUARE)];
    assert DirectFind([polygon], "Polygon") == Some(polygon);
    assert DirectFind([polygon], "Point").None? && DirectFind([polygon], "LineString").None?;
  }

  lemma {:induction false} Tagged(outer: string, inner: string)
    ensures PolygonWith(outer, inner).tag == "Polygon"
  {
  }

  lemma {:induction false} CloseNothing()
    ensures CloseAll([]) == []
  {
  }

  /** A polygon is refused exactly if one of its drawn rings is a closed one of three points. */
  lemma {:induction false} RefusedIff(parse: CoordinateParser, children: seq<Elem>)
    ensures FromPolygon(parse, children) == Refused <==>
            && RingsOf(parse, children).Some?
            && exists ring :: ring in RingsOf(parse, children).value && ClosedTriangle(ring)
  {
    hide RingText, Boundaries, Drawn, CloseRing;
    match DirectFind(children, "Polygon")
    case None =>
    case Some(e) =>
      var boundaries := Boundaries(e);
      match Drawn(parse, boundaries)
      case None =>
      case Some(drawn) =>
        DrawnLongEnough(parse, boundaries);
        var rings := CloseAll(drawn);
        forall i | 0 <= i < |drawn|
          ensures |rings[i]| >= 4 <==> !(|drawn[i]| == 3 && Closed(drawn[i]))
        {
          assert drawn[i] in drawn;
          RingClosed(drawn[i]);
        }
        if ring :| ring in drawn && ClosedTriangle(ring) {
          var i :| 0 <= i < |drawn| && drawn[i] == ring;
          assert rings[i] in rings;
        } else {
          forall ring | ring in rings
            ensures |ring| >= 4
          {
            var i :| 0 <= i < |rings| && rings[i] == ring;
            assert drawn[i] in drawn;
          }
        }
  }
}
