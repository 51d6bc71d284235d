/** The Special Use Airspace ring builder of suas.py: one forward pass over
    the rows of SUAS.TXT that turns each contiguous group of rows sharing a
    SUAS_IDENT into one boundary ring, emitted both as a GeoJSON polygon
    feature and as a line object of the drawing document. */
module Suas {
  import opened Wrappers
  import opened Text
  import opened Geo
  import opened Drx
  import opened Seqs

  /** One row of SUAS.TXT with the CTRY_1 that SUAS_CTRY.TXT gives its
      SUAS_IDENT, numeric fields already converted by float(); RADIUS2 is
      None when the field is empty. */
  datatype SuasRow = SuasRow(
    ident: string, country: string, typ: string, shape: string,
    name: string, icao: string,
    lat0: real, lon0: real, lat1: real, lon1: real, lat2: real, lon2: real,
    radius1: real, radius2: Option<real>)

  /** The GeoJSON properties of a feature (suas.py:239-244). */
  datatype Props = Props(suas: string, name: string, icao: string, typ: string)

  datatype Feature = Feature(ring: seq<Point>, props: Props)

  function PropsOf(row: SuasRow): Props {
    Props(row.ident, row.name, row.icao, row.typ)
  }

  // ---------------------------------------------------------------------
  // Country filter (suas.py:96-97)

  /** A row is skipped when a filter is given and the first two letters of
      its country are not one of the filter's upper-cased words. */
  predicate Skipped(countryFilter: string, country: string) {
    Prefix(country, 2) !in Words(Upper(countryFilter)) && countryFilter != ""
  }

  /** The filter is case-insensitive: upper-casing it changes nothing. */
  lemma {:induction false} SkippedIgnoresFilterCase(countryFilter: string, country: string)
    ensures Skipped(Upper(countryFilter), country) == Skipped(countryFilter, country)
  {
    UpperIdempotent(countryFilter);
  }

  /** The country code is not upper-cased: with a filter given, a code with a
      lower-case letter in its first two characters never matches. */
  lemma {:induction false} LowerCaseCountrySkipped(countryFilter: string, country: string, k: nat)
    requires countryFilter != ""
    requires k < |Prefix(country, 2)| && IsLower(country[k])
    ensures Skipped(countryFilter, country)
  {
    var code := Prefix(country, 2);
    assert forall c :: c in Upper(countryFilter) ==> !IsLower(c);
    assert forall w :: w in Words(Upper(countryFilter)) ==> code[k] !in w;
  }

  // ---------------------------------------------------------------------
  // Colour of the drawing object (suas.py:99-108)

  const Red := Rgb(255, 0, 0)
  const Purple := Rgb(128, 0, 128)
  const Magenta := Rgb(255, 0, 128)
  const Blue := Rgb(0, 64, 128)
  const Black := Rgb(0, 0, 0)

  /** The fore pen colour for a TYPE code; every code gets one. */
  function Colour(typ: string): (c: Rgb)
    ensures c in {Red, Purple, Magenta, Blue, Black}
    ensures c == Red <==> typ == "T" || typ == "R"
  {
    if typ == "T" || typ == "R" then Red
    else if typ == "M" then Purple
    else if typ == "A" then Magenta
    else if typ == "W" then Blue
    else Black
  }

  /** The colour table written as data. */
  const Palette: map<string, Rgb> := map["T" := Red, "R" := Red, "M" := Purple, "A" := Magenta, "W" := Blue]

  /** The lookup agrees with the table, black for every other code. */
  lemma {:induction false} ColourByPalette(typ: string)
    ensures Colour(typ) == if typ in Palette then Palette[typ] else Black
  {
  }

  // ---------------------------------------------------------------------
  // Shapes (suas.py:133-236)

  predicate IsCircle(row: SuasRow) {
    row.shape == "C" || row.shape == "A"
  }

  predicate IsArc(row: SuasRow) {
    row.shape == "R" || row.shape == "L"
  }

  /** +1 for a clockwise 'R' arc, -1 otherwise. */
  function Direction(row: SuasRow): int {
    if row.shape == "R" then 1 else -1
  }

  /** Number of samples on a circle; 360 / Samples = 10 degrees apart. */
  const Samples := 36

  /** Nautical miles to feet, for the drawing's ellipse radii. */
  const FeetPerNm := 6076.12

  predicate AnyInBox(area: Area, pts: seq<Point>) {
    exists k :: 0 <= k < |pts| && InBox(area, pts[k])
  }

  lemma {:induction false} AnyInBoxAppend(area: Area, c: seq<Point>, d: seq<Point>)
    ensures AnyInBox(area, c + d) <==> AnyInBox(area, c) || AnyInBox(area, d)
  {
    if AnyInBox(area, d) {
      var k :| 0 <= k < |d| && InBox(area, d[k]);
      assert (c + d)[|c| + k] == d[k];
    }
    if AnyInBox(area, c) {
      var k :| 0 <= k < |c| && InBox(area, c[k]);
      assert (c + d)[k] == c[k];
    }
    if AnyInBox(area, c + d) {
      var k :| 0 <= k < |c + d| && InBox(area, (c + d)[k]);
      if k < |c| {
        assert (c + d)[k] == c[k];
      } else {
        assert (c + d)[k] == d[k - |c|];
      }
    }
  }

  lemma {:induction false} AnyInBoxSingle(area: Area, p: Point)
    ensures AnyInBox(area, [p]) <==> InBox(area, p)
  {
    assert [p][0] == p;
  }

  /** The sampled circle of suas.py:158-173: 36 projections at bearings
      0, 10, ..., 350, then the first again to close the loop. */
  function Circle(geo: Geodesy, lat: real, lon: real, radius: real): (c: seq<Point>)
    ensures |c| == Samples + 1 && c[Samples] == c[0]
    ensures forall i :: 0 <= i < Samples ==> c[i] == geo.project(lat, lon, radius, 10.0 * i as real)
  {
    var loop := seq(Samples, i => geo.project(lat, lon, radius, 10.0 * i as real));
    loop + [loop[0]]
  }

  /** The sampling loop: the circle, and whether a sample fell in the area. */
  method SampleCircle(geo: Geodesy, area: Area, lat: real, lon: real, radius: real)
    returns (circle: seq<Point>, hit: bool)
    ensures circle == Circle(geo, lat, lon, radius)
    ensures hit <==> AnyInBox(area, circle)
  {
    circle := [];
    hit := false;
    var i := 0;
    while i < Samples
      invariant 0 <= i <= Samples
      invariant |circle| == i
      invariant forall k :: 0 <= k < i ==> circle[k] == geo.project(lat, lon, radius, 10.0 * k as real)
      invariant hit <==> AnyInBox(area, circle)
    {
      var point := geo.project(lat, lon, radius, 10.0 * i as real);
      if InBox(area, point) {
        hit := true;
      }
      AnyInBoxAppend(area, circle, [point]);
      AnyInBoxSingle(area, point);
      circle := circle + [point];
      i := i + 1;
    }
    var closed := circle + [circle[0]];
    AnyInBoxAppend(area, circle, [circle[0]]);
    AnyInBoxSingle(area, circle[0]);
    ghost var spec := Circle(geo, lat, lon, radius);
    assert forall k :: 0 <= k < Samples ==> closed[k] == spec[k];
    assert closed[Samples] == spec[Samples];
    assert closed == spec;
    circle := closed;
  }

  /** suas.py:204-207: the angular sweep from theta1 to theta2, turned to
      the row's direction by adding a full turn when the signs disagree. */
  function Sweep(theta1: Bearing, theta2: Bearing, direction: int): (a: real)
    requires direction == 1 || direction == -1
    ensures a * direction as real >= 0.0
    ensures -360.0 < a < 360.0
    ensures a == theta2 - theta1 || a == theta2 - theta1 + 360.0 * direction as real
  {
    var angdiff := theta2 - theta1;
    if angdiff * direction as real < 0.0 then angdiff + direction as real * 360.0 else angdiff
  }

  function Abs(x: real): real {
    if x < 0.0 then -x else x
  }

  /** `math.ceil(abs(sweep) / 10)` (suas.py:209). */
  function SampleCount(sweep: real): (k: nat)
    ensures 10.0 * k as real >= Abs(sweep)
    ensures k == 0 || 10.0 * (k - 1) as real < Abs(sweep)
  {
    var q := Abs(sweep) / 10.0;
    if q.Floor as real == q then q.Floor else q.Floor + 1
  }

  /** The arc samples of suas.py:209-221, at theta1 + direction * 10 * i. */
  function ArcSamples(geo: Geodesy, lat: real, lon: real, radius: real, theta1: real, direction: int, count: nat): (s: seq<Point>)
    ensures |s| == count
    ensures forall i :: 0 <= i < count ==> s[i] == geo.project(lat, lon, radius, theta1 + (direction * i) as real * 10.0)
  {
    seq(count, i => geo.project(lat, lon, radius, theta1 + (direction * i) as real * 10.0))
  }

  method SampleArc(geo: Geodesy, area: Area, lat: real, lon: real, radius: real, theta1: real, direction: int, count: nat)
    returns (arc: seq<Point>, hit: bool)
    ensures arc == ArcSamples(geo, lat, lon, radius, theta1, direction, count)
    ensures hit <==> AnyInBox(area, arc)
  {
    arc := [];
    hit := false;
    var i := 0;
    while i < count
      invariant 0 <= i <= count
      invariant |arc| == i
      invariant forall k :: 0 <= k < i ==> arc[k] == geo.project(lat, lon, radius, theta1 + (direction * k) as real * 10.0)
      invariant hit <==> AnyInBox(area, arc)
    {
      var point := geo.project(lat, lon, radius, theta1 + (direction * i) as real * 10.0);
      if InBox(area, point) {
        hit := true;
      }
      AnyInBoxAppend(area, arc, [point]);
      AnyInBoxSingle(area, point);
      arc := arc + [point];
      i := i + 1;
    }
    ghost var spec := ArcSamples(geo, lat, lon, radius, theta1, direction, count);
    assert forall k :: 0 <= k < count ==> arc[k] == spec[k];
  }

  function Theta1(geo: Geodesy, row: SuasRow): Bearing {
    geo.bearing(row.lat0, row.lon0, row.lat1, row.lon1)
  }

  function Theta2(geo: Geodesy, row: SuasRow): Bearing {
    geo.bearing(row.lat0, row.lon0, row.lat2, row.lon2)
  }

  function ArcSweep(geo: Geodesy, row: SuasRow): real {
    Sweep(Theta1(geo, row), Theta2(geo, row), Direction(row))
  }

  /** The first adjacent point, rounded to four decimals. */
  function StartPoint(row: SuasRow): Point {
    Point(Round4(row.lon1), Round4(row.lat1))
  }

  /** The second adjacent point, rounded to four decimals. */
  function EndPoint(row: SuasRow): Point {
    Point(Round4(row.lon2), Round4(row.lat2))
  }

  function ArcPoints(geo: Geodesy, row: SuasRow): seq<Point> {
    ArcSamples(geo, row.lat0, row.lon0, row.radius1, Theta1(geo, row), Direction(row), SampleCount(ArcSweep(geo, row)))
    + [EndPoint(row)]
  }

  /** An arc is at most 36 samples that start at theta1, advance in the
      row's direction and stop short of theta2, followed by the literal
      second point. */
  lemma {:induction false} ArcShape(geo: Geodesy, row: SuasRow)
    ensures var n := SampleCount(ArcSweep(geo, row));
      && n <= Samples
      && |ArcPoints(geo, row)| == n + 1
      && ArcPoints(geo, row)[n] == EndPoint(row)
      && ArcSweep(geo, row) * Direction(row) as real >= 0.0
      && forall i :: 0 <= i < n ==>
           && ArcPoints(geo, row)[i] == geo.project(row.lat0, row.lon0, row.radius1, Theta1(geo, row) + (Direction(row) * i) as real * 10.0)
           && 10.0 * i as real < Abs(ArcSweep(geo, row))
  {
    var n := SampleCount(ArcSweep(geo, row));
    assert n == 0 || 10.0 * (n - 1) as real < 360.0;
  }

  /** The points a row adds in GeoJSON mode (suas.py:157-236). A non-empty
      RADIUS2 extends the same list with a second circle. */
  function Segment(geo: Geodesy, row: SuasRow): seq<Point> {
    if IsCircle(row) then
      Circle(geo, row.lat0, row.lon0, row.radius1)
      + (if row.radius2.Some? then Circle(geo, row.lat0, row.lon0, row.radius2.value) else [])
    else if IsArc(row) then ArcPoints(geo, row)
    else [StartPoint(row), EndPoint(row)]
  }

  /** Whether the row's bbox tests set `valid`: every circle sample, every
      arc sample (not the literal end point), and only the first point of a
      straight edge. */
  predicate SegmentHit(geo: Geodesy, area: Area, row: SuasRow) {
    if IsCircle(row) then
      || AnyInBox(area, Circle(geo, row.lat0, row.lon0, row.radius1))
      || (row.radius2.Some? && AnyInBox(area, Circle(geo, row.lat0, row.lon0, row.radius2.value)))
    else if IsArc(row) then
      AnyInBox(area, ArcSamples(geo, row.lat0, row.lon0, row.radius1, Theta1(geo, row), Direction(row), SampleCount(ArcSweep(geo, row))))
    else InBox(area, StartPoint(row))
  }

  /** A row that sets `valid` contributes a point inside the area. */
  lemma {:induction false} HitIsWitnessed(geo: Geodesy, area: Area, row: SuasRow)
    requires SegmentHit(geo, area, row)
    ensures AnyInBox(area, Segment(geo, row))
  {
    var seg := Segment(geo, row);
    if IsCircle(row) {
      var c1 := Circle(geo, row.lat0, row.lon0, row.radius1);
      if AnyInBox(area, c1) {
        var k :| 0 <= k < |c1| && InBox(area, c1[k]);
        assert seg[k] == c1[k];
      } else {
        var c2 := Circle(geo, row.lat0, row.lon0, row.radius2.value);
        var k :| 0 <= k < |c2| && InBox(area, c2[k]);
        assert seg[|c1| + k] == c2[k];
      }
    } else if IsArc(row) {
      var s := ArcSamples(geo, row.lat0, row.lon0, row.radius1, Theta1(geo, row), Direction(row), SampleCount(ArcSweep(geo, row)));
      var k :| 0 <= k < |s| && InBox(area, s[k]);
      assert seg[k] == s[k];
    } else {
      assert seg[0] == StartPoint(row);
    }
  }

  /** Points added per row: 37 for a circle, 74 with a second radius, the
      samples plus one for an arc, two for a straight edge. */
  lemma {:induction false} SegmentSize(geo: Geodesy, row: SuasRow)
    ensures IsCircle(row) ==> |Segment(geo, row)| == if row.radius2.Some? then 2 * (Samples + 1) else Samples + 1
    ensures IsArc(row) && !IsCircle(row) ==> |Segment(geo, row)| == SampleCount(ArcSweep(geo, row)) + 1
    ensures !IsArc(row) && !IsCircle(row) ==> |Segment(geo, row)| == 2
  {
  }

  /** A straight edge whose second point lies in the area but whose first
      does not leaves `valid` unset. */
  lemma {:induction false} EdgeSecondPointNotTested(geo: Geodesy, row: SuasRow)
    requires !IsCircle(row) && !IsArc(row)
    requires row.lat1 == 100.0 && row.lon1 == 0.0 && row.lat2 == 0.0 && row.lon2 == 0.0
    ensures InBox(WholeGlobe, EndPoint(row)) && EndPoint(row) in Segment(geo, row)
    ensures !SegmentHit(geo, WholeGlobe, row)
  {
    assert RoundHalfEven(1000000.0) == 1000000;
    assert RoundHalfEven(0.0) == 0;
  }

  // ---------------------------------------------------------------------
  // Junction de-duplication (suas.py:237-238)

  predicate HasJunctionDuplicate(c: seq<Point>) {
    |c| > 2 && c[|c| - 2] == c[|c| - 3]
  }

  /** Drops the third-last point when it repeats the second-last. */
  function DropJunction(c: seq<Point>): (r: seq<Point>)
    ensures HasJunctionDuplicate(c) ==> |r| == |c| - 1
    ensures !HasJunctionDuplicate(c) ==> r == c
    ensures forall p :: p in r <==> p in c
  {
    if HasJunctionDuplicate(c) then c[..|c| - 3] + c[|c| - 2..] else c
  }

  /** The path a point list traces: consecutive repeats merged. */
  function Collapse(c: seq<Point>): seq<Point>
    decreases |c|
  {
    if |c| <= 1 then c
    else if c[0] == c[1] then Collapse(c[1..])
    else [c[0]] + Collapse(c[1..])
  }

  lemma {:induction false} CollapseRemoveRepeat(c: seq<Point>, k: nat)
    requires k + 1 < |c| && c[k] == c[k + 1]
    ensures Collapse(c[..k] + c[k + 1..]) == Collapse(c)
    decreases k
  {
    var d := c[..k] + c[k + 1..];
    if k == 0 {
      assert d == c[1..];
    } else {
      var t := c[1..];
      assert t[..k - 1] + t[k..] == d[1..];
      CollapseRemoveRepeat(t, k - 1);
      assert d[0] == c[0] && d[1] == c[1];
    }
  }

  /** De-duplication removes one of two equal neighbours, every other point
      keeps its order, so the traced path is unchanged. */
  lemma {:induction false} DropJunctionKeepsPath(c: seq<Point>)
    ensures Collapse(DropJunction(c)) == Collapse(c)
    ensures HasJunctionDuplicate(c) ==> forall k :: 0 <= k < |c| - 1 ==> DropJunction(c)[k] == c[if k < |c| - 3 then k else k + 1]
  {
    if HasJunctionDuplicate(c) {
      var n := |c|;
      var d := c[..n - 3] + c[n - 2..];
      CollapseRemoveRepeat(c, n - 3);
      forall k | 0 <= k < n - 1
        ensures d[k] == c[if k < n - 3 then k else k + 1]
      {
        if k >= n - 3 {
          assert d[k] == c[n - 2..][k - (n - 3)];
        }
      }
    }
  }

  // ---------------------------------------------------------------------
  // Closing a ring (suas.py:112-113, 122, 247-248, 256)

  predicate Closed(r: seq<Point>) {
    |r| > 0 && r[0] == r[|r| - 1]
  }

  /** Appends the first point unless the list already ends with it. */
  function CloseRing(c: seq<Point>): (r: seq<Point>)
    requires |c| > 0
    ensures |r| == if c[0] == c[|c| - 1] then |c| else |c| + 1
    ensures Closed(r) && r[..|c|] == c
  {
    if c[0] != c[|c| - 1] then c + [c[0]] else c
  }

  /** `coordinates.pop()`: the ring handed to the drawing. */
  function OpenRing(r: seq<Point>): seq<Point>
    requires |r| > 0
  {
    r[..|r| - 1]
  }

  /** The drawing gets the input without its closing point: the whole list
      when it was open, one point less when it was already closed. */
  lemma {:induction false} DrawnRing(c: seq<Point>)
    requires |c| > 0
    ensures OpenRing(CloseRing(c)) == if c[0] != c[|c| - 1] then c else c[..|c| - 1]
    ensures CloseRing(CloseRing(c)) == CloseRing(c)
  {
  }

  lemma {:induction false} CloseRingKeepsHits(area: Area, c: seq<Point>)
    requires |c| > 0 && AnyInBox(area, c)
    ensures AnyInBox(area, CloseRing(c))
  {
    var k :| 0 <= k < |c| && InBox(area, c[k]);
    assert CloseRing(c)[k] == c[k];
  }


  /** Feature k and line object k describe the same ring. */
  ghost predicate Mirrored(features: seq<Feature>, objects: seq<DrawObject>) {
    && |objects| == |features|
    && forall k :: 0 <= k < |features| ==>
         && |features[k].ring| > 0
         && objects[k].tooltip == features[k].props.suas
         && objects[k].figure == Line(true, DrxPoints(OpenRing(features[k].ring)))
  }

  /** What holds of the features emitted while rows are read: closed rings
      of at least 4 points; in GeoJSON mode each has a point in the area and
      has its line object at the same position of the drawing. */
  ghost predicate Emitted(features: seq<Feature>, objects: seq<DrawObject>, area: Area, drawingTarget: bool) {
    && (forall k :: 0 <= k < |features| ==> Closed(features[k].ring) && |features[k].ring| >= 4)
    && (!drawingTarget ==> Mirrored(features, objects))
    && (!drawingTarget ==> forall k :: 0 <= k < |features| ==> AnyInBox(area, features[k].ring))
  }

  /** The line object drawn for a finished ring: its points without the
      closing one, as a polygon (suas.py:123-127, 256-258). */
  function RingObject(id: int, tooltip: string, fore: Rgb, ring: seq<Point>): DrawObject
    requires |ring| > 0
  {
    DrawObject(id, tooltip, fore, Line(true, DrxPoints(OpenRing(ring))))
  }

  lemma {:induction false} EmitOne(features: seq<Feature>, objects: seq<DrawObject>, area: Area, drawingTarget: bool, f: Feature, o: DrawObject)
    requires Emitted(features, objects, area, drawingTarget)
    requires Closed(f.ring) && |f.ring| >= 4
    requires !drawingTarget ==> AnyInBox(area, f.ring) && o == RingObject(o.id, f.props.suas, o.fore, f.ring)
    ensures Emitted(features + [f], objects + [o], area, drawingTarget)
  {
    var fs, os := features + [f], objects + [o];
    assert fs[|features|] == f && os[|objects|] == o;
    assert forall k :: 0 <= k < |features| ==> fs[k] == features[k];
    assert forall k :: 0 <= k < |objects| ==> os[k] == objects[k];
  }

  /** What survives of the accumulated ring when a row arrives
      (suas.py:111-131): within a group everything; on a new identifier a
      ring of more than 3 points has been finished and an invalid one is
      dropped, but a valid ring of 3 points or fewer is kept and runs on
      into the new identifier's ring. */
  function Carried(sameGroup: bool, coords: seq<Point>, valid: bool): (seq<Point>, bool) {
    if sameGroup then (coords, valid)
    else if |coords| > 3 || !valid then ([], false)
    else (coords, valid)
  }

  /** The parameters of one run: the geodesy, the `-a` area, the `-c`
      country filter and whether the output name ends in .drx or .xml. */
  datatype Setting = Setting(geo: Geodesy, area: Area, countryFilter: string, drawingTarget: bool)

  /** The loop state of suas.py's main() between two statements, as a value:
      the ring being built, its bbox flag, the last identifier, properties
      and colour, the features emitted and the drawing's objects. */
  datatype Snapshot = Snapshot(
    coords: seq<Point>, valid: bool, ident: string, props: Option<Props>, colour: Option<Rgb>,
    features: seq<Feature>, objects: seq<DrawObject>)

  /** The state before the first row (suas.py:85-92). */
  const Initial := Snapshot([], false, "", None, None, [], [])

  /** The ellipse objects a drawing-mode circle adds (suas.py:134-156): one
      per radius, numbered from id, centred on the raw centre, with radii in
      feet. */
  function Ellipses(id: int, tooltip: string, fore: Rgb, row: SuasRow): (r: seq<DrawObject>)
    ensures |r| == if row.radius2.Some? then 2 else 1
    ensures forall k :: 0 <= k < |r| ==>
      && r[k].id == id + k && r[k].tooltip == tooltip && r[k].fore == fore
      && r[k].figure.Ellipse? && FromDrx(r[k].figure.center) == Point(row.lon0, row.lat0)
    ensures -0.5 <= r[0].figure.vRadius as real - row.radius1 * FeetPerNm <= 0.5
    ensures row.radius2.Some? ==> -0.5 <= r[1].figure.vRadius as real - row.radius2.value * FeetPerNm <= 0.5
  {
    var centre := Point(row.lon0, row.lat0);
    [DrawObject(id, tooltip, fore, NewFigure([centre], EllipseKind, false, row.radius1 * FeetPerNm, row.radius1 * FeetPerNm))]
    + if row.radius2.Some? then
        [DrawObject(id + 1, tooltip, fore, NewFigure([centre], EllipseKind, false, row.radius2.value * FeetPerNm, row.radius2.value * FeetPerNm))]
      else []
  }

  /** What the start of a row does to the state (suas.py:111-131): on a new
      identifier a valid ring of more than 3 points is emitted and drawn,
      then Carried decides what is left of the ring. */
  function CloseStep(s: Snapshot, rowIdent: string, fore: Rgb): Snapshot {
    var carried := Carried(rowIdent == s.ident, s.coords, s.valid);
    if rowIdent != s.ident && |s.coords| > 3 && s.valid && s.props.Some? then
      s.(coords := carried.0, valid := carried.1,
         features := s.features + [Feature(CloseRing(s.coords), s.props.value)],
         objects := s.objects + [RingObject(|s.objects|, s.ident, fore, CloseRing(s.coords))])
    else s.(coords := carried.0, valid := carried.1)
  }

  /** What the shape of a row does to the state (suas.py:133-238). */
  function ExtendStep(cfg: Setting, s: Snapshot, row: SuasRow, fore: Rgb): Snapshot {
    if cfg.drawingTarget && IsCircle(row) then
      if InBox(cfg.area, Point(row.lon0, row.lat0)) then
        s.(coords := [], objects := s.objects + Ellipses(|s.objects|, s.ident, fore, row))
      else s.(coords := DropJunction(s.coords))
    else
      s.(coords := DropJunction(s.coords + Segment(cfg.geo, row)),
         valid := s.valid || SegmentHit(cfg.geo, cfg.area, row))
  }

  /** One pass of the row loop (suas.py:94-245): a skipped row changes
      nothing, any other row finishes the previous group, adds its shape and
      becomes the current identifier. */
  function Next(cfg: Setting, s: Snapshot, row: SuasRow): Snapshot {
    if Skipped(cfg.countryFilter, row.country) then s
    else
      var fore := Colour(row.typ);
      var t := ExtendStep(cfg, CloseStep(s, row.ident, fore), row, fore);
      t.(ident := row.ident, props := Some(PropsOf(row)), colour := Some(fore))
  }

  /** The colour a row sets first plays no part in the rest of the pass. */
  lemma {:induction false} NextAfterColour(cfg: Setting, s: Snapshot, row: SuasRow)
    requires !Skipped(cfg.countryFilter, row.country)
    ensures var fore := Colour(row.typ);
      Next(cfg, s, row) ==
        ExtendStep(cfg, CloseStep(s.(colour := Some(fore)), row.ident, fore), row, fore)
          .(ident := row.ident, props := Some(PropsOf(row)), colour := Some(fore))
  {
  }

  /** Features and objects only grow: a row appends to them and never
      rewrites what is there. */
  lemma {:induction false} NextGrows(cfg: Setting, s: Snapshot, row: SuasRow)
    ensures s.features <= Next(cfg, s, row).features && s.objects <= Next(cfg, s, row).objects
  {
    if !Skipped(cfg.countryFilter, row.country) {
      var fore := Colour(row.typ);
      var c := CloseStep(s, row.ident, fore);
      assert s.features <= c.features && s.objects <= c.objects;
      PrefixTrans(s.objects, c.objects, ExtendStep(cfg, c, row, fore).objects);
    }
  }

  /** Next written out field by field for a row the filter keeps: the
      feature and line object of a finished group, then the ellipses of a
      drawing-mode circle, and the ring the row leaves behind. */
  lemma {:induction false} NextKept(cfg: Setting, s: Snapshot, row: SuasRow)
    requires !Skipped(cfg.countryFilter, row.country)
    requires s.coords != [] ==> s.props.Some?
    ensures var r := Next(cfg, s, row);
      var fore := Colour(row.typ);
      var closes := row.ident != s.ident && |s.coords| > 3 && s.valid;
      var closed := if closes then [RingObject(|s.objects|, s.ident, fore, CloseRing(s.coords))] else [];
      var carried := Carried(row.ident == s.ident, s.coords, s.valid);
      && r.ident == row.ident && r.props == Some(PropsOf(row)) && r.colour == Some(fore)
      && r.features == s.features + (if closes then [Feature(CloseRing(s.coords), s.props.value)] else [])
      && r.objects == s.objects + closed
           + (if cfg.drawingTarget && IsCircle(row) && InBox(cfg.area, Point(row.lon0, row.lat0))
              then Ellipses(|s.objects| + |closed|, s.ident, fore, row) else [])
      && r.valid == (if cfg.drawingTarget && IsCircle(row) then carried.1 else carried.1 || SegmentHit(cfg.geo, cfg.area, row))
      && r.coords ==
           if cfg.drawingTarget && IsCircle(row) then
             (if InBox(cfg.area, Point(row.lon0, row.lat0)) then [] else DropJunction(carried.0))
           else DropJunction(carried.0 + Segment(cfg.geo, row))
  {
    NextObjects(cfg, s, row);
  }

  /** The objects part of NextKept. */
  lemma {:induction false} NextObjects(cfg: Setting, s: Snapshot, row: SuasRow)
    requires !Skipped(cfg.countryFilter, row.country)
    requires s.coords != [] ==> s.props.Some?
    ensures var fore := Colour(row.typ);
      var closes := row.ident != s.ident && |s.coords| > 3 && s.valid;
      var closed := if closes then [RingObject(|s.objects|, s.ident, fore, CloseRing(s.coords))] else [];
      Next(cfg, s, row).objects == s.objects + closed
           + (if cfg.drawingTarget && IsCircle(row) && InBox(cfg.area, Point(row.lon0, row.lat0))
              then Ellipses(|s.objects| + |closed|, s.ident, fore, row) else [])
  {
    var fore := Colour(row.typ);
    var c := CloseStep(s, row.ident, fore);
    var closes := row.ident != s.ident && |s.coords| > 3 && s.valid;
    CloseObjects(s, row.ident, fore);
    ExtendObjects(cfg, c, row, fore);
  }

  /** The object CloseStep adds: the line of a finished valid ring of more
      than 3 points. */
  lemma {:induction false} CloseObjects(s: Snapshot, rowIdent: string, fore: Rgb)
    requires s.coords != [] ==> s.props.Some?
    ensures var c := CloseStep(s, rowIdent, fore);
      && c.ident == s.ident
      && c.objects == s.objects
        + (if rowIdent != s.ident && |s.coords| > 3 && s.valid
           then [RingObject(|s.objects|, s.ident, fore, CloseRing(s.coords))] else [])
  {
    if !(rowIdent != s.ident && |s.coords| > 3 && s.valid) {
      assert s.objects + [] == s.objects;
    }
  }

  /** The objects ExtendStep adds: the ellipses of a drawing-mode circle
      whose centre is in the area, and nothing otherwise. */
  lemma {:induction false} ExtendObjects(cfg: Setting, c: Snapshot, row: SuasRow, fore: Rgb)
    ensures ExtendStep(cfg, c, row, fore).objects == c.objects
      + (if cfg.drawingTarget && IsCircle(row) && InBox(cfg.area, Point(row.lon0, row.lat0))
         then Ellipses(|c.objects|, c.ident, fore, row) else [])
  {
    if !(cfg.drawingTarget && IsCircle(row) && InBox(cfg.area, Point(row.lon0, row.lat0))) {
      assert c.objects + [] == c.objects;
    }
  }

  /** The ring builder: the loop variables of suas.py's main(). */
  class Assembler {
    const geo: Geodesy
    const area: Area
    const countryFilter: string
    /** The output file ends in .drx or .xml. */
    const drawingTarget: bool
    const drawing: Drawing

    var coords: seq<Point>
    var valid: bool
    var ident: string
    var props: Option<Props>
    var colour: Option<Rgb>
    var features: seq<Feature>

    /** What holds between and within rows; in GeoJSON mode `valid` means
        the ring has a point in the area. */
    ghost predicate Core()
      reads this, drawing
    {
      && drawing.Valid()
      && (props.Some? ==> props.value.suas == ident)
      && Emitted(features, drawing.objects, area, drawingTarget)
      && (!drawingTarget && valid ==> AnyInBox(area, coords))
    }

    /** What holds between rows: a non-empty ring has the properties and
        colour of the row that last extended it. */
    ghost predicate Valid()
      reads this, drawing
    {
      Core() && (coords != [] ==> props.Some? && colour.Some?)
    }

    function Cfg(): Setting {
      Setting(geo, area, countryFilter, drawingTarget)
    }

    ghost function Snap(): Snapshot
      reads this, drawing
    {
      Snapshot(coords, valid, ident, props, colour, features, drawing.objects)
    }

    constructor (geo: Geodesy, area: Area, countryFilter: string, drawingTarget: bool)
      ensures Valid() && fresh(drawing)
      ensures this.geo == geo && this.area == area && this.countryFilter == countryFilter && this.drawingTarget == drawingTarget
      ensures coords == [] && !valid && ident == "" && props == None && colour == None
      ensures features == [] && drawing.objects == []
    {
      this.geo := geo;
      this.area := area;
      this.countryFilter := countryFilter;
      this.drawingTarget := drawingTarget;
      drawing := new Drawing();
      coords := [];
      valid := false;
      ident := "";
      props := None;
      colour := None;
      features := [];
    }

    /** suas.py:111-131: on a new identifier, finish a ring of more than 3
        points (close it; if valid, emit the feature and draw it without
        its closing point), then drop an invalid ring. */
    method CloseGroup(rowIdent: string, fore: Rgb)
      requires Valid()
      modifies this, drawing
      ensures Core()
      ensures ident == old(ident) && props == old(props) && colour == old(colour)
      ensures (coords, valid) == Carried(rowIdent == old(ident), old(coords), old(valid))
      ensures rowIdent != old(ident) && |old(coords)| > 3 && old(valid) ==>
        && features == old(features) + [Feature(CloseRing(old(coords)), old(props).value)]
        && drawing.objects == old(drawing.objects) + [RingObject(|old(drawing.objects)|, old(ident), fore, CloseRing(old(coords)))]
      ensures !(rowIdent != old(ident) && |old(coords)| > 3 && old(valid)) ==>
        features == old(features) && drawing.objects == old(drawing.objects) && drawing.next == old(drawing.next)
      ensures Snap() == CloseStep(old(Snap()), rowIdent, fore)
    {
      if rowIdent != ident && |coords| > 3 {
        if valid {
          var ring := CloseRing(coords);
          if !drawingTarget {
            CloseRingKeepsHits(area, coords);
          }
          ghost var objects := drawing.objects;
          var feature := Feature(ring, props.value);
          features := features + [feature];
          drawing.Append(OpenRing(ring), LineKind, true, fore, ident, 6076.0, 6076.0);
          assert drawing.objects == objects + [RingObject(|objects|, ident, fore, ring)];
          EmitOne(old(features), objects, area, drawingTarget, feature, RingObject(|objects|, ident, fore, ring));
        }
        coords := [];
        valid := false;
      }
      if rowIdent != ident && !valid {
        coords := [];
      }
    }

    /** suas.py:134-156, drawing output: a circle becomes an ellipse at its
        raw centre (and a second one for RADIUS2), only when the centre lies
        in the area; the ring is then emptied. */
    method AddEllipses(row: SuasRow, fore: Rgb)
      requires Core() && drawingTarget && IsCircle(row)
      modifies this, drawing
      ensures Core()
      ensures valid == old(valid) && features == old(features)
      ensures ident == old(ident) && props == old(props) && colour == old(colour)
      ensures var centre := Point(row.lon0, row.lat0);
        && (InBox(area, centre) ==>
             && coords == []
             && drawing.objects == old(drawing.objects) + Ellipses(|old(drawing.objects)|, old(ident), fore, row))
        && (!InBox(area, centre) ==> coords == old(coords) && drawing.objects == old(drawing.objects))
    {
      var point := Point(row.lon0, row.lat0);
      if InBox(area, point) {
        coords := coords + [point];
        drawing.Append(coords, EllipseKind, false, fore, ident, row.radius1 * FeetPerNm, row.radius1 * FeetPerNm);
        coords := [];
        if row.radius2.Some? {
          coords := coords + [point];
          drawing.Append(coords, EllipseKind, false, fore, ident, row.radius2.value * FeetPerNm, row.radius2.value * FeetPerNm);
          coords := [];
        }
      }
    }

    /** suas.py:158-191, GeoJSON output: the circle, then a second circle on
        the same list when RADIUS2 is given. */
    method AddCircles(row: SuasRow)
      requires Core() && !drawingTarget && IsCircle(row)
      modifies this
      ensures Core()
      ensures coords == old(coords) + Segment(geo, row)
      ensures valid == (old(valid) || SegmentHit(geo, area, row))
      ensures features == old(features) && ident == old(ident) && props == old(props) && colour == old(colour)
    {
      var points, hit := SampleCircle(geo, area, row.lat0, row.lon0, row.radius1);
      if row.radius2.Some? {
        var second, hit2 := SampleCircle(geo, area, row.lat0, row.lon0, row.radius2.value);
        AnyInBoxAppend(area, points, second);
        points, hit := points + second, hit || hit2;
      } else {
        assert points + [] == points;
      }
      AnyInBoxAppend(area, coords, points);
      valid := valid || hit;
      coords := coords + points;
    }

    /** suas.py:193-224: arc samples, then the literal second point. */
    method AddArc(row: SuasRow)
      requires Core() && IsArc(row) && !IsCircle(row)
      modifies this
      ensures Core()
      ensures coords == old(coords) + Segment(geo, row)
      ensures valid == (old(valid) || SegmentHit(geo, area, row))
      ensures features == old(features) && ident == old(ident) && props == old(props) && colour == old(colour)
    {
      var theta1 := geo.bearing(row.lat0, row.lon0, row.lat1, row.lon1);
      var theta2 := geo.bearing(row.lat0, row.lon0, row.lat2, row.lon2);
      var direction := if row.shape == "R" then 1 else -1;
      var angdiff := Sweep(theta1, theta2, direction);
      var arc, hit := SampleArc(geo, area, row.lat0, row.lon0, row.radius1, theta1, direction, SampleCount(angdiff));
      AnyInBoxAppend(area, coords, arc);
      AnyInBoxAppend(area, coords + arc, [EndPoint(row)]);
      valid := valid || hit;
      coords := coords + arc;
      coords := coords + [EndPoint(row)];
      assert coords == old(coords) + (arc + [EndPoint(row)]);
    }

    /** suas.py:226-236: both adjacent points, only the first bbox-tested. */
    method AddEdge(row: SuasRow)
      requires Core() && !IsArc(row) && !IsCircle(row)
      modifies this
      ensures Core()
      ensures coords == old(coords) + Segment(geo, row)
      ensures valid == (old(valid) || SegmentHit(geo, area, row))
      ensures features == old(features) && ident == old(ident) && props == old(props) && colour == old(colour)
    {
      var point := StartPoint(row);
      if InBox(area, point) {
        valid := true;
      }
      AnyInBoxAppend(area, coords, [point, EndPoint(row)]);
      assert [point, EndPoint(row)][0] == point;
      coords := coords + [point, EndPoint(row)];
    }

    /** suas.py:237-238. */
    method RemoveJunctionDuplicate()
      requires Core()
      modifies this
      ensures Core()
      ensures coords == DropJunction(old(coords))
      ensures valid == old(valid) && features == old(features) && ident == old(ident) && props == old(props) && colour == old(colour)
    {
      if |coords| > 2 && coords[|coords| - 2] == coords[|coords| - 3] {
        ghost var before := coords;
        coords := coords[..|coords| - 3] + coords[|coords| - 2..];
        if !drawingTarget && valid {
          ghost var k :| 0 <= k < |before| && InBox(area, before[k]);
          assert before[k] in coords;
          ghost var j :| 0 <= j < |coords| && coords[j] == before[k];
        }
      }
    }

    /** The shape dispatch of suas.py:133-238 for one row. */
    method Extend(row: SuasRow, fore: Rgb)
      requires Core()
      modifies this, drawing
      ensures Core()
      ensures features == old(features) && ident == old(ident) && props == old(props) && colour == old(colour)
      ensures valid == if drawingTarget && IsCircle(row) then old(valid) else old(valid) || SegmentHit(geo, area, row)
      ensures coords ==
        if drawingTarget && IsCircle(row) then
          (if InBox(area, Point(row.lon0, row.lat0)) then [] else DropJunction(old(coords)))
        else DropJunction(old(coords) + Segment(geo, row))
      ensures drawing.objects ==
        if drawingTarget && IsCircle(row) && InBox(area, Point(row.lon0, row.lat0)) then
          old(drawing.objects) + Ellipses(|old(drawing.objects)|, old(ident), fore, row)
        else old(drawing.objects)
      ensures Snap() == ExtendStep(Cfg(), old(Snap()), row, fore)
    {
      if IsCircle(row) {
        if drawingTarget {
          AddEllipses(row, fore);
        } else {
          AddCircles(row);
        }
      } else if IsArc(row) {
        AddArc(row);
      } else {
        AddEdge(row);
      }
      RemoveJunctionDuplicate();
    }

    /** One iteration of the row loop (suas.py:94-245). The whole new
        state, drawing objects included, is Next of the old one; NextKept
        spells it out field by field. */
    method Step(row: SuasRow)
      requires Valid()
      modifies this, drawing
      ensures Valid()
      ensures Skipped(countryFilter, row.country) ==>
        && coords == old(coords) && valid == old(valid) && ident == old(ident)
        && props == old(props) && colour == old(colour)
        && features == old(features) && drawing.objects == old(drawing.objects)
      ensures !Skipped(countryFilter, row.country) ==>
        ident == row.ident && props == Some(PropsOf(row)) && colour == Some(Colour(row.typ))
      ensures !Skipped(countryFilter, row.country) ==>
        var closes := row.ident != old(ident) && |old(coords)| > 3 && old(valid);
        features == old(features) + (if closes then [Feature(CloseRing(old(coords)), old(props).value)] else [])
      ensures !Skipped(countryFilter, row.country) ==>
        var carried := Carried(row.ident == old(ident), old(coords), old(valid));
        && valid == (if drawingTarget && IsCircle(row) then carried.1 else carried.1 || SegmentHit(geo, area, row))
        && coords ==
             if drawingTarget && IsCircle(row) then
               (if InBox(area, Point(row.lon0, row.lat0)) then [] else DropJunction(carried.0))
             else DropJunction(carried.0 + Segment(geo, row))
      ensures !Skipped(countryFilter, row.country) ==>
        var closes := row.ident != old(ident) && |old(coords)| > 3 && old(valid);
        var closed := if closes then [RingObject(|old(drawing.objects)|, old(ident), Colour(row.typ), CloseRing(old(coords)))] else [];
        drawing.objects == old(drawing.objects) + closed
          + (if drawingTarget && IsCircle(row) && InBox(area, Point(row.lon0, row.lat0))
             then Ellipses(|old(drawing.objects)| + |closed|, old(ident), Colour(row.typ), row) else [])
      ensures Snap() == Next(Cfg(), old(Snap()), row)
    {
      if Skipped(countryFilter, row.country) {
        return;
      }
      StepKept(row);
    }

    /** Step on a row the filter keeps, field by field. */
    method StepKept(row: SuasRow)
      requires Valid() && !Skipped(countryFilter, row.country)
      modifies this, drawing
      ensures Valid()
      ensures ident == row.ident && props == Some(PropsOf(row)) && colour == Some(Colour(row.typ))
      ensures var closes := row.ident != old(ident) && |old(coords)| > 3 && old(valid);
        features == old(features) + (if closes then [Feature(CloseRing(old(coords)), old(props).value)] else [])
      ensures var carried := Carried(row.ident == old(ident), old(coords), old(valid));
        && valid == (if drawingTarget && IsCircle(row) then carried.1 else carried.1 || SegmentHit(geo, area, row))
        && coords ==
             if drawingTarget && IsCircle(row) then
               (if InBox(area, Point(row.lon0, row.lat0)) then [] else DropJunction(carried.0))
             else DropJunction(carried.0 + Segment(geo, row))
      ensures var closes := row.ident != old(ident) && |old(coords)| > 3 && old(valid);
        var closed := if closes then [RingObject(|old(drawing.objects)|, old(ident), Colour(row.typ), CloseRing(old(coords)))] else [];
        drawing.objects == old(drawing.objects) + closed
          + (if drawingTarget && IsCircle(row) && InBox(area, Point(row.lon0, row.lat0))
             then Ellipses(|old(drawing.objects)| + |closed|, old(ident), Colour(row.typ), row) else [])
      ensures Snap() == Next(Cfg(), old(Snap()), row)
    {
      ghost var before := Snap();
      Advance(row);
      NextKept(Cfg(), before, row);
    }

    /** The statements of the row loop for a row the filter keeps. */
    method Advance(row: SuasRow)
      requires Valid() && !Skipped(countryFilter, row.country)
      modifies this, drawing
      ensures Valid()
      ensures Snap() == Next(Cfg(), old(Snap()), row)
    {
      ghost var before := Snap();
      var fore := Colour(row.typ);
      colour := Some(fore);
      ghost var coloured := Snap();
      NextAfterColour(Cfg(), before, row);
      CloseGroup(row.ident, fore);
      ghost var closed := Snap();
      Extend(row, fore);
      ghost var extended := Snap();
      props := Some(PropsOf(row));
      ident := row.ident;
      assert Snap() == extended.(ident := row.ident, props := Some(PropsOf(row)), colour := Some(fore));
    }

    /** suas.py:247-260: close the last ring, with no length check, and emit
        it if valid. `coordinates[0]` fails on an empty list: ok is false. */
    method Finish() returns (ok: bool)
      requires Valid()
      modifies this, drawing
      ensures ok <==> old(coords) != []
      ensures valid == old(valid) && ident == old(ident) && props == old(props) && colour == old(colour)
      ensures drawing.Valid()
      ensures !ok || !old(valid) ==> features == old(features) && drawing.objects == old(drawing.objects)
      ensures !ok ==> coords == old(coords)
      ensures ok && !old(valid) ==> coords == CloseRing(old(coords))
      ensures ok && old(valid) ==>
        && coords == OpenRing(CloseRing(old(coords)))
        && features == old(features) + [Feature(CloseRing(old(coords)), old(props).value)]
        && drawing.objects == old(drawing.objects) + [RingObject(|old(drawing.objects)|, old(ident), old(colour).value, CloseRing(old(coords)))]
      ensures !drawingTarget ==> Written(features, drawing.objects, area)
    {
      if coords == [] {
        if !drawingTarget {
          WrittenFromEmitted(features, drawing.objects, area);
        }
        return false;
      }
      coords := CloseRing(coords);
      if valid {
        ghost var objects := drawing.objects;
        var feature := Feature(coords, props.value);
        features := features + [feature];
        coords := OpenRing(coords);
        drawing.Append(coords, LineKind, true, colour.value, ident, 6076.0, 6076.0);
        if !drawingTarget {
          CloseRingKeepsHits(area, old(coords));
          assert drawing.objects == objects + [RingObject(|objects|, ident, colour.value, feature.ring)];
          WrittenSnoc(old(features), objects, area, feature, RingObject(|objects|, ident, colour.value, feature.ring));
        }
      } else if !drawingTarget {
        WrittenFromEmitted(features, drawing.objects, area);
      }
      return true;
    }

    /** suas.py:247-268: finish the last ring and produce the file. */
    method Produce() returns (out: Output)
      requires Valid()
      modifies this, drawing
      ensures out == Final(Cfg(), old(Snap()))
      ensures out.GeoJson? ==> !drawingTarget && Rings(out.features, area)
      ensures out.DrawingDocument? ==> drawingTarget && Numbered(out.objects, out.next)
    {
      ghost var before := Snap();
      var ok := Finish();
      FinalFromFinish(Cfg(), before, ok, features, drawing.objects, drawing.next);
      if !ok {
        out := Crashed;
      } else if drawingTarget {
        out := DrawingDocument(drawing.objects, drawing.next);
      } else {
        out := GeoJson(features);
      }
    }
  }

  /** The written FeatureCollection: closed rings with a point in the area,
      each drawn as the line object at the same position; every ring but
      the last has at least 4 points. */
  ghost predicate Written(features: seq<Feature>, objects: seq<DrawObject>, area: Area) {
    Mirrored(features, objects) && Rings(features, area)
  }

  ghost predicate Rings(features: seq<Feature>, area: Area) {
    && (forall k :: 0 <= k < |features| ==> Closed(features[k].ring) && AnyInBox(area, features[k].ring))
    && (forall k :: 0 <= k < |features| - 1 ==> |features[k].ring| >= 4)
  }

  lemma {:induction false} WrittenFromEmitted(features: seq<Feature>, objects: seq<DrawObject>, area: Area)
    requires Emitted(features, objects, area, false)
    ensures Written(features, objects, area)
  {
  }

  lemma {:induction false} WrittenSnoc(features: seq<Feature>, objects: seq<DrawObject>, area: Area, f: Feature, o: DrawObject)
    requires Emitted(features, objects, area, false)
    requires Closed(f.ring) && AnyInBox(area, f.ring)
    requires o == RingObject(o.id, f.props.suas, o.fore, f.ring)
    ensures Written(features + [f], objects + [o], area)
  {
    var fs, os := features + [f], objects + [o];
    assert fs[|features|] == f && os[|objects|] == o;
    assert forall k :: 0 <= k < |features| ==> fs[k] == features[k];
    assert forall k :: 0 <= k < |objects| ==> os[k] == objects[k];
  }

  /** The output file: a FeatureCollection, or the drawing document when
      the name ends in .drx or .xml; Crashed stands for the IndexError of
      `coordinates[0]` when no row contributed a point. */
  datatype Output =
    | Crashed
    | GeoJson(features: seq<Feature>)
    | DrawingDocument(objects: seq<DrawObject>, next: Option<int>)

  predicate IsDrawingTarget(fileName: string) {
    EndsWith(fileName, ".drx") || EndsWith(fileName, ".xml")
  }

  /** p are the properties of a row among the first n that the country
      filter keeps. */
  ghost predicate FromKeptRow(p: Props, rows: seq<SuasRow>, n: nat, countryFilter: string) {
    exists j :: 0 <= j < n && j < |rows| && !Skipped(countryFilter, rows[j].country) && p == PropsOf(rows[j])
  }

  /** Every property set and feature stems from a kept row, row by row. */
  lemma {:induction false} Provenance(rows: seq<SuasRow>, i: nat, countryFilter: string,
                   props: Option<Props>, features: seq<Feature>, props': Option<Props>, features': seq<Feature>)
    requires i < |rows|
    requires props.Some? ==> FromKeptRow(props.value, rows, i, countryFilter)
    requires forall k :: 0 <= k < |features| ==> FromKeptRow(features[k].props, rows, i, countryFilter)
    requires Skipped(countryFilter, rows[i].country) ==> props' == props
    requires !Skipped(countryFilter, rows[i].country) ==> props' == Some(PropsOf(rows[i]))
    requires features' == features || exists ring :: props.Some? && features' == features + [Feature(ring, props.value)]
    ensures props'.Some? ==> FromKeptRow(props'.value, rows, i + 1, countryFilter)
    ensures forall k :: 0 <= k < |features'| ==> FromKeptRow(features'[k].props, rows, i + 1, countryFilter)
  {
    if !Skipped(countryFilter, rows[i].country) {
      assert FromKeptRow(PropsOf(rows[i]), rows, i + 1, countryFilter);
    }
    forall k | 0 <= k < |features'|
      ensures FromKeptRow(features'[k].props, rows, i + 1, countryFilter)
    {
      if k < |features| {
        assert features'[k] == features[k];
      }
    }
  }

  // ---------------------------------------------------------------------
  // The whole pass as a function of the rows

  /** One pass of the row loop under a fixed setting, as a step function. */
  function StepOf(cfg: Setting): (Snapshot, SuasRow) -> Snapshot {
    (s, row) => Next(cfg, s, row)
  }

  /** The state after the first i rows. */
  function After(cfg: Setting, rows: seq<SuasRow>, i: nat): Snapshot
    requires i <= |rows|
  {
    FoldLeft(StepOf(cfg), Initial, rows, i)
  }

  /** Reading row i moves the state after i rows to the state after i + 1. */
  lemma {:induction false} AfterStep(cfg: Setting, rows: seq<SuasRow>, i: nat)
    requires i < |rows|
    ensures After(cfg, rows, i + 1) == Next(cfg, After(cfg, rows, i), rows[i])
  {
  }

  /** What suas.py writes once every row is read (suas.py:247-268): the last
      ring is closed without a length check and, when valid, emitted and
      drawn; an empty ring makes `coordinates[0]` fail. */
  function Outcome(cfg: Setting, rows: seq<SuasRow>): Output {
    Final(cfg, After(cfg, rows, |rows|))
  }

  /** The output made from the state after the last row. */
  function Final(cfg: Setting, s: Snapshot): Output {
    if s.coords == [] then Crashed
    else
      var ring := CloseRing(s.coords);
      var last := s.valid && s.props.Some? && s.colour.Some?;
      var objects := if last then s.objects + [RingObject(|s.objects|, s.ident, s.colour.value, ring)] else s.objects;
      if cfg.drawingTarget then DrawingDocument(objects, if objects == [] then None else Some(|objects|))
      else GeoJson(if last then s.features + [Feature(ring, s.props.value)] else s.features)
  }

  /** What Finish leaves behind is what Final describes. */
  lemma {:induction false} FinalFromFinish(cfg: Setting, s: Snapshot, ok: bool,
                                           features: seq<Feature>, objects: seq<DrawObject>, next: Option<int>)
    requires Ready(s)
    requires ok <==> s.coords != []
    requires !ok || !s.valid ==> features == s.features && objects == s.objects
    requires ok && s.valid ==>
      && features == s.features + [Feature(CloseRing(s.coords), s.props.value)]
      && objects == s.objects + [RingObject(|s.objects|, s.ident, s.colour.value, CloseRing(s.coords))]
    requires Numbered(objects, next)
    ensures Final(cfg, s) == if !ok then Crashed else if cfg.drawingTarget then DrawingDocument(objects, next) else GeoJson(features)
  {
  }

  /** Between rows a non-empty ring always has the properties and colour of
      a kept row, and the properties name the current identifier. */
  ghost predicate Ready(s: Snapshot) {
    && (s.coords != [] ==> s.props.Some? && s.colour.Some?)
    && (s.props.Some? ==> s.props.value.suas == s.ident)
  }

  /** Every row keeps the state Ready. */
  lemma {:induction false} NextReady(cfg: Setting, s: Snapshot, row: SuasRow)
    requires Ready(s)
    ensures Ready(Next(cfg, s, row))
  {
  }

  lemma {:induction false} AfterReady(cfg: Setting, rows: seq<SuasRow>, i: nat)
    requires i <= |rows|
    ensures Ready(After(cfg, rows, i))
  {
    forall k, s | 0 <= k < |rows| && Ready(s)
      ensures Ready(Next(cfg, s, rows[k]))
    {
      NextReady(cfg, s, rows[k]);
    }
    FoldInvariant(StepOf(cfg), Initial, rows, 0, i, (k, s) => Ready(s));
  }

  /** Features and objects emitted after i rows stay, at the same
      positions, in those emitted after j >= i rows. */
  lemma {:induction false} AfterMonotone(cfg: Setting, rows: seq<SuasRow>, i: nat, j: nat)
    requires i <= j <= |rows|
    ensures After(cfg, rows, i).features <= After(cfg, rows, j).features
    ensures After(cfg, rows, i).objects <= After(cfg, rows, j).objects
  {
    var t := After(cfg, rows, i);
    forall k, s: Snapshot | 0 <= k < |rows| && t.features <= s.features && t.objects <= s.objects
      ensures t.features <= Next(cfg, s, rows[k]).features && t.objects <= Next(cfg, s, rows[k]).objects
    {
      var u := Next(cfg, s, rows[k]);
      NextGrows(cfg, s, rows[k]);
      PrefixTrans(t.features, s.features, u.features);
      PrefixTrans(t.objects, s.objects, u.objects);
    }
    FoldInvariant(StepOf(cfg), Initial, rows, i, j, (k, s: Snapshot) => t.features <= s.features && t.objects <= s.objects);
  }

  lemma {:induction false} PrefixTrans<T>(a: seq<T>, b: seq<T>, c: seq<T>)
    requires a <= b && b <= c
    ensures a <= c
  {
    assert b[..|a|] == a && c[..|b|] == b;
    assert c[..|a|] == c[..|b|][..|a|];
  }

  /** With every row filtered out nothing happens and the script fails on
      the empty ring. */
  lemma {:induction false} AllSkippedCrashes(cfg: Setting, rows: seq<SuasRow>, i: nat)
    requires i <= |rows|
    requires forall j :: 0 <= j < i ==> Skipped(cfg.countryFilter, rows[j].country)
    ensures After(cfg, rows, i) == Initial
    ensures i == |rows| ==> Outcome(cfg, rows) == Crashed
  {
    forall k, s | 0 <= k < |rows| && (k <= i ==> s == Initial)
      ensures k + 1 <= i ==> Next(cfg, s, rows[k]) == Initial
    {
      if k + 1 <= i {
        assert Skipped(cfg.countryFilter, rows[k].country);
      }
    }
    FoldInvariant(StepOf(cfg), Initial, rows, 0, i, (k, s) => k <= i ==> s == Initial);
  }

  /** In GeoJSON mode a kept row leaves points in the ring, for good. */
  lemma {:induction false} KeptRowLeavesPoints(cfg: Setting, rows: seq<SuasRow>, j: nat, i: nat)
    requires !cfg.drawingTarget && j < i <= |rows| && !Skipped(cfg.countryFilter, rows[j].country)
    ensures After(cfg, rows, i).coords != []
  {
    forall k, s: Snapshot | 0 <= k < |rows| && (k > j ==> s.coords != [])
      ensures k + 1 > j ==> Next(cfg, s, rows[k]).coords != []
    {
      if !Skipped(cfg.countryFilter, rows[k].country) {
        NonEmptyExtension(cfg, s, rows[k]);
      }
    }
    FoldInvariant(StepOf(cfg), Initial, rows, 0, i, (k, s: Snapshot) => k > j ==> s.coords != []);
  }

  lemma {:induction false} NonEmptyExtension(cfg: Setting, s: Snapshot, row: SuasRow)
    requires !cfg.drawingTarget && !Skipped(cfg.countryFilter, row.country)
    ensures Next(cfg, s, row).coords != []
  {
    var c := CloseStep(s, row.ident, Colour(row.typ));
    SegmentSize(cfg.geo, row);
    assert |c.coords + Segment(cfg.geo, row)| >= 1;
  }

  /** In GeoJSON mode the script fails exactly when the country filter
      rejects every row. */
  lemma {:induction false} GeoJsonCrashIffAllSkipped(cfg: Setting, rows: seq<SuasRow>)
    requires !cfg.drawingTarget
    ensures Outcome(cfg, rows).Crashed? <==> forall j :: 0 <= j < |rows| ==> Skipped(cfg.countryFilter, rows[j].country)
  {
    if forall j :: 0 <= j < |rows| ==> Skipped(cfg.countryFilter, rows[j].country) {
      AllSkippedCrashes(cfg, rows, |rows|);
    } else {
      var j :| 0 <= j < |rows| && !Skipped(cfg.countryFilter, rows[j].country);
      KeptRowLeavesPoints(cfg, rows, j, |rows|);
    }
  }

  /** Feature f and object o sit where they were emitted: at the lengths
      the lists had in s. */
  ghost predicate Holds(s: Snapshot, x: Snapshot, f: Feature, o: DrawObject) {
    && |s.features| < |x.features| && x.features[|s.features|] == f
    && |s.objects| < |x.objects| && x.objects[|s.objects|] == o
  }

  /** Completeness for groups: when row i starts a new identifier and the
      ring before it is valid with more than 3 points, that ring, closed,
      is in the output at the position it was emitted, as a feature and as
      the line object drawn in the row's colour. */
  lemma {:induction false} GroupRingEmitted(cfg: Setting, rows: seq<SuasRow>, i: nat)
    requires i < |rows| && !Skipped(cfg.countryFilter, rows[i].country)
    requires var s := After(cfg, rows, i);
      rows[i].ident != s.ident && |s.coords| > 3 && s.valid
    ensures var s := After(cfg, rows, i);
      var out := Outcome(cfg, rows);
      && s.props.Some?
      && (out.GeoJson? ==> |s.features| < |out.features| && out.features[|s.features|] == Feature(CloseRing(s.coords), s.props.value))
      && (out.DrawingDocument? ==>
            |s.objects| < |out.objects| && out.objects[|s.objects|] == RingObject(|s.objects|, s.ident, Colour(rows[i].typ), CloseRing(s.coords)))
  {
    var s := After(cfg, rows, i);
    AfterReady(cfg, rows, i);
    var f := Feature(CloseRing(s.coords), s.props.value);
    var o := RingObject(|s.objects|, s.ident, Colour(rows[i].typ), CloseRing(s.coords));
    AfterStep(cfg, rows, i);
    NextKept(cfg, s, rows[i]);
    HoldsToEnd(cfg, rows, i + 1, s, f, o);
    FinalKeeps(cfg, s, After(cfg, rows, |rows|), f, o);
  }

  /** Later rows keep what Holds: lists only grow. */
  lemma {:induction false} HoldsToEnd(cfg: Setting, rows: seq<SuasRow>, j: nat, s: Snapshot, f: Feature, o: DrawObject)
    requires j <= |rows| && Holds(s, After(cfg, rows, j), f, o)
    ensures Holds(s, After(cfg, rows, |rows|), f, o)
  {
    forall k, x | 0 <= k < |rows| && Holds(s, x, f, o)
      ensures Holds(s, Next(cfg, x, rows[k]), f, o)
    {
      NextGrows(cfg, x, rows[k]);
    }
    FoldInvariant(StepOf(cfg), Initial, rows, j, |rows|, (k, x) => Holds(s, x, f, o));
  }

  /** The output keeps what Holds after the last row. */
  lemma {:induction false} FinalKeeps(cfg: Setting, s: Snapshot, x: Snapshot, f: Feature, o: DrawObject)
    requires Holds(s, x, f, o)
    ensures var out := Final(cfg, x);
      && (out.GeoJson? ==> |s.features| < |out.features| && out.features[|s.features|] == f)
      && (out.DrawingDocument? ==> |s.objects| < |out.objects| && out.objects[|s.objects|] == o)
  {
  }

  /** Completeness for the last ring: when it is non-empty and valid it is
      the last feature and the last line object, in its group's colour. */
  lemma {:induction false} FinalRingReported(cfg: Setting, rows: seq<SuasRow>)
    requires After(cfg, rows, |rows|).coords != [] && After(cfg, rows, |rows|).valid
    ensures var s := After(cfg, rows, |rows|);
      var out := Outcome(cfg, rows);
      && s.props.Some? && s.colour.Some?
      && (out.GeoJson? ==> out.features == s.features + [Feature(CloseRing(s.coords), s.props.value)])
      && (out.DrawingDocument? ==> out.objects == s.objects + [RingObject(|s.objects|, s.ident, s.colour.value, CloseRing(s.coords))])
  {
    AfterReady(cfg, rows, |rows|);
  }

  /** Every feature carries the properties of a row the filter keeps. */
  lemma {:induction false} AfterProvenance(cfg: Setting, rows: seq<SuasRow>, i: nat)
    requires i <= |rows|
    ensures Traced(After(cfg, rows, i), rows, i, cfg.countryFilter)
  {
    forall k, s | 0 <= k < |rows| && Ready(s) && Traced(s, rows, k, cfg.countryFilter)
      ensures Ready(Next(cfg, s, rows[k])) && Traced(Next(cfg, s, rows[k]), rows, k + 1, cfg.countryFilter)
    {
      NextReady(cfg, s, rows[k]);
      NextProvenance(cfg, s, rows, k);
    }
    assert Ready(Initial) && Traced(Initial, rows, 0, cfg.countryFilter);
    FoldInvariant(StepOf(cfg), Initial, rows, 0, i, (k, s) => Ready(s) && Traced(s, rows, k, cfg.countryFilter));
  }

  /** The properties held and emitted stem from kept rows among the first n. */
  ghost predicate Traced(s: Snapshot, rows: seq<SuasRow>, n: nat, countryFilter: string) {
    && (s.props.Some? ==> FromKeptRow(s.props.value, rows, n, countryFilter))
    && forall k :: 0 <= k < |s.features| ==> FromKeptRow(s.features[k].props, rows, n, countryFilter)
  }

  lemma {:induction false} NextProvenance(cfg: Setting, s: Snapshot, rows: seq<SuasRow>, i: nat)
    requires i < |rows| && Ready(s) && Traced(s, rows, i, cfg.countryFilter)
    ensures Traced(Next(cfg, s, rows[i]), rows, i + 1, cfg.countryFilter)
  {
    var t := Next(cfg, s, rows[i]);
    if !Skipped(cfg.countryFilter, rows[i].country) {
      NextKept(cfg, s, rows[i]);
      if t.features != s.features {
        assert t.features == s.features + [Feature(CloseRing(s.coords), s.props.value)];
      }
    }
    Provenance(rows, i, cfg.countryFilter, s.props, s.features, t.props, t.features);
  }

  lemma {:induction false} OutcomeFromKeptRows(cfg: Setting, rows: seq<SuasRow>)
    ensures var out := Outcome(cfg, rows);
      out.GeoJson? ==> forall k :: 0 <= k < |out.features| ==> FromKeptRow(out.features[k].props, rows, |rows|, cfg.countryFilter)
  {
    AfterProvenance(cfg, rows, |rows|);
  }

  /** suas.py's main() from the parsed rows on (suas.py:84-268). */
  method Run(geo: Geodesy, area: Area, countryFilter: string, fileName: string, rows: seq<SuasRow>)
    returns (out: Output)
    ensures out == Outcome(Setting(geo, area, countryFilter, IsDrawingTarget(fileName)), rows)
    ensures out.Crashed? <==> After(Setting(geo, area, countryFilter, IsDrawingTarget(fileName)), rows, |rows|).coords == []
    ensures (forall j :: 0 <= j < |rows| ==> Skipped(countryFilter, rows[j].country)) ==> out == Crashed
    ensures out.GeoJson? ==> !IsDrawingTarget(fileName)
    ensures out.GeoJson? ==> Rings(out.features, area)
    ensures out.GeoJson? ==> forall k :: 0 <= k < |out.features| ==> FromKeptRow(out.features[k].props, rows, |rows|, countryFilter)
    ensures out.DrawingDocument? ==> IsDrawingTarget(fileName) && Numbered(out.objects, out.next)
  {
    var target := IsDrawingTarget(fileName);
    ghost var cfg := Setting(geo, area, countryFilter, target);
    var a := new Assembler(geo, area, countryFilter, target);
    ReadAll(a, rows);
    out := a.Produce();
    if forall j :: 0 <= j < |rows| ==> Skipped(countryFilter, rows[j].country) {
      AllSkippedCrashes(cfg, rows, |rows|);
    }
    OutcomeFromKeptRows(cfg, rows);
  }

  /** The row loop of suas.py:94-245. */
  method ReadAll(a: Assembler, rows: seq<SuasRow>)
    requires a.Valid() && a.Snap() == Initial
    modifies a, a.drawing
    ensures a.Valid() && a.Snap() == After(a.Cfg(), rows, |rows|)
  {
    var i := 0;
    while i < |rows|
      invariant 0 <= i <= |rows|
      invariant a.Valid() && a.Snap() == After(a.Cfg(), rows, i)
    {
      ReadRow(a, rows, i);
      i := i + 1;
    }
  }

  /** One pass of the row loop: the assembler moves from the state after
      i rows to the state after i + 1. */
  method ReadRow(a: Assembler, rows: seq<SuasRow>, i: nat)
    requires i < |rows| && a.Valid() && a.Snap() == After(a.Cfg(), rows, i)
    modifies a, a.drawing
    ensures a.Valid() && a.Snap() == After(a.Cfg(), rows, i + 1)
  {
    a.Step(rows[i]);
    AfterStep(a.Cfg(), rows, i);
  }
}
