/** The drawing-object document of suas.py's `append2drx` (suas.py:296-452):
    an <Objects> root whose `Next` attribute counts the <Object> children it
    has handed out. Only the structure is modelled (object IDs, the counter,
    the figure kind, its points or centre, the tooltip and the fore pen
    colour); fonts, labels, embedded text and the other pen and fill
    attributes are not. */
module Drx {
  import opened Wrappers
  import opened Geo

  datatype Rgb = Rgb(red: int, green: int, blue: int)

  /** A <Point> element: its LATITUDE and LONGITUDE texts. */
  datatype DrxPoint = DrxPoint(latitude: real, longitude: real)

  /** The `obj` argument after `.lower()`: anything that is neither
      'ellipse' nor 'text' draws a line. */
  datatype Kind = EllipseKind | TextKind | LineKind

  datatype Figure =
    | Ellipse(center: DrxPoint, vRadius: int, hRadius: int)
    | Label(center: DrxPoint)
    | Line(polygon: bool, points: seq<DrxPoint>)

  /** One <Object ID=...> child: the Detail/Tooltip text, the fore colour of
      its pen and its figure. */
  datatype DrawObject = DrawObject(id: int, tooltip: string, fore: Rgb, figure: Figure)

  /** LATITUDE is the tuple's p[1], LONGITUDE its p[0]. */
  function ToDrx(p: Point): DrxPoint {
    DrxPoint(p.lat, p.lon)
  }

  function FromDrx(q: DrxPoint): Point {
    Point(q.longitude, q.latitude)
  }

  /** The <Point> children of a line, one per coordinate, in order. */
  function DrxPoints(coords: seq<Point>): (r: seq<DrxPoint>)
    ensures |r| == |coords|
    ensures forall k :: 0 <= k < |coords| ==> r[k].latitude == coords[k].lat && r[k].longitude == coords[k].lon
  {
    if coords == [] then [] else [ToDrx(coords[0])] + DrxPoints(coords[1..])
  }

  /** Reading the coordinates back from <Point> elements. */
  function Coordinates(points: seq<DrxPoint>): (r: seq<Point>)
    ensures |r| == |points|
  {
    if points == [] then [] else [FromDrx(points[0])] + Coordinates(points[1..])
  }

  /** The <Point> elements of a line reproduce its coordinates exactly. */
  lemma {:induction false} DrxPointsRoundTrip(coords: seq<Point>)
    ensures Coordinates(DrxPoints(coords)) == coords
  {
    if coords != [] {
      DrxPointsRoundTrip(coords[1..]);
      assert DrxPoints(coords)[1..] == DrxPoints(coords[1..]);
    }
  }

  /** The loop at suas.py:432-437 that emits one <Point> per coordinate. */
  method PointElements(coords: seq<Point>) returns (points: seq<DrxPoint>)
    ensures points == DrxPoints(coords)
  {
    points := [];
    var i := 0;
    while i < |coords|
      invariant 0 <= i <= |coords|
      invariant points == DrxPoints(coords[..i])
    {
      DrxPointsSnoc(coords[..i], coords[i]);
      assert coords[..i + 1] == coords[..i] + [coords[i]];
      points := points + [ToDrx(coords[i])];
      i := i + 1;
    }
    assert coords[..i] == coords;
  }

  lemma {:induction false} DrxPointsSnoc(coords: seq<Point>, p: Point)
    ensures DrxPoints(coords + [p]) == DrxPoints(coords) + [ToDrx(p)]
  {
    var l, r := DrxPoints(coords + [p]), DrxPoints(coords) + [ToDrx(p)];
    assert |l| == |r|;
    forall k | 0 <= k < |l|
      ensures l[k] == r[k]
    {
      if k < |coords| {
        assert (coords + [p])[k] == coords[k];
      }
    }
  }

  /** The figure append2drx builds: an ellipse or a text centred on the last
      coordinate (suas.py:407-412), or a line through every coordinate
      (suas.py:431-437). Radii are written as `round(radius)`. */
  function NewFigure(coords: seq<Point>, kind: Kind, polygon: bool, vRadius: real, hRadius: real): (f: Figure)
    requires kind != LineKind ==> coords != []
    ensures kind == LineKind <==> f.Line?
    ensures kind == EllipseKind <==> f.Ellipse?
    ensures f.Line? ==> f.polygon == polygon && Coordinates(f.points) == coords
    ensures !f.Line? ==> FromDrx(f.center) == coords[|coords| - 1]
    ensures f.Ellipse? ==> -0.5 <= f.vRadius as real - vRadius <= 0.5 && -0.5 <= f.hRadius as real - hRadius <= 0.5
  {
    DrxPointsRoundTrip(coords);
    match kind
    case EllipseKind =>
      Ellipse(ToDrx(coords[|coords| - 1]), RoundHalfEven(vRadius), RoundHalfEven(hRadius))
    case TextKind => Label(ToDrx(coords[|coords| - 1]))
    case LineKind => Line(polygon, DrxPoints(coords))
  }

  /** `int(drawing.attrib['Next'])`, or 0 when the attribute is absent. */
  function NextId(next: Option<int>): int {
    if next.Some? then next.value else 0
  }

  /** Objects are numbered 0, 1, 2, ... in order and `Next` names the
      number the next one will get. */
  ghost predicate Numbered(objects: seq<DrawObject>, next: Option<int>) {
    && (next.None? <==> objects == [])
    && (next.Some? ==> next.value == |objects|)
    && forall i :: 0 <= i < |objects| ==> objects[i].id == i
  }

  class Drawing {
    var objects: seq<DrawObject>
    /** The root's `Next` attribute; None until the first append. */
    var next: Option<int>

    ghost predicate Valid()
      reads this
    {
      Numbered(objects, next)
    }

    /** `et.Element('Objects')` (suas.py:85). */
    constructor ()
      ensures Valid() && objects == [] && next == None
    {
      objects := [];
      next := None;
    }

    /** append2drx: one new <Object> whose ID is the old `Next` (0 when
        absent), and `Next` set to that ID plus one. */
    method Append(coords: seq<Point>, kind: Kind, polygon: bool, fore: Rgb, tooltip: string,
                  vRadius: real, hRadius: real)
      requires kind != LineKind ==> coords != []
      modifies this
      ensures objects == old(objects) + [DrawObject(NextId(old(next)), tooltip, fore, NewFigure(coords, kind, polygon, vRadius, hRadius))]
      ensures next == Some(NextId(old(next)) + 1)
      ensures old(Valid()) ==> Valid()
    {
      var n := NextId(next);
      var figure: Figure;
      if kind == LineKind {
        var points := PointElements(coords);
        figure := Line(polygon, points);
      } else {
        figure := NewFigure(coords, kind, polygon, vRadius, hRadius);
      }
      objects := objects + [DrawObject(n, tooltip, fore, figure)];
      next := Some(n + 1);
    }
  }
}
