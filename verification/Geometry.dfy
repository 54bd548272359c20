/** The geometry of the Common Tactical Object, its validator, and ring closing. */
module Geometry {
  import opened Seqs

  /** [lon, lat] */
  datatype Point = Point(lon: real, lat: real)

  datatype Geometry =
    | PointGeometry(at: Option<Point>)
    | LineString(points: seq<Point>)
    | Polygon(rings: seq<seq<Point>>)

  /** The schema's coordinate validator. */
  predicate Accepted(g: Geometry) {
    match g
    case PointGeometry(at) => at.Some?
    case LineString(points) => |points| >= 2
    case Polygon(rings) => |rings| >= 1 && forall ring | ring in rings :: |ring| >= 4
  }

  predicate Closed(points: seq<Point>) {
    points != [] && points[0] == points[|points| - 1]
  }

  /** `if ring[0] != ring[-1]: ring.append(ring[0])` */
  function CloseRing(points: seq<Point>): seq<Point> {
    if points != [] && !Closed(points) then points + [points[0]] else points
  }

  /** Every drawn vertex in order, at most one more, and the ring closed; it is long enough for the schema exactly if it
      is not a closed ring of three or fewer drawn vertices, or an open one of two or fewer. */
  lemma {:induction false} RingClosed(points: seq<Point>)
    requires points != []
    ensures points <= CloseRing(points)
    ensures |CloseRing(points)| == |points| + if Closed(points) then 0 else 1
    ensures Closed(CloseRing(points))
    ensures |CloseRing(points)| >= 4 <==> |points| >= 4 || (|points| == 3 && !Closed(points))
  {
    assert CloseRing(points)[..|points|] == points;
  }
}
