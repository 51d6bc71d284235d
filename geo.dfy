/** Points, the bounding-box filter and rounding as suas.py uses them. The
    spherical trigonometry of `projection` and `bearing` (suas.py:271-294)
    is not modelled: both are supplied as opaque function values, and only
    the range bearing() normalises into is kept. */
module Geo {

  /** A vertex as suas.py stores it: a (longitude, latitude) tuple, x first. */
  datatype Point = Point(lon: real, lat: real)

  /** What bearing() returns: degrees normalised into [0, 360) (suas.py:293). */
  type Bearing = r: real | 0.0 <= r < 360.0

  /** The two geodetic functions of suas.py, as values:
      project(lat, lon, distance in NM, bearing in degrees) gives the
      destination point; bearing(lat1, lon1, lat2, lon2) the initial bearing. */
  datatype Geodesy = Geodesy(
    project: (real, real, real, real) -> Point,
    bearing: (real, real, real, real) -> Bearing)

  /** The `-a` area filter: NW and SE corners, in the order the script reads
      them (north latitude, west longitude, south latitude, east longitude). */
  datatype Area = Area(north: real, west: real, south: real, east: real)

  /** The default `-a '90 -180 -90 180'`. */
  const WholeGlobe := Area(90.0, -180.0, -90.0, 180.0)

  /** The inclusive rectangular test written out at suas.py:136-139,
      167-170, 184-187, 216-219 and 228-231. */
  predicate InBox(area: Area, p: Point) {
    p.lat <= area.north && p.lat >= area.south && p.lon >= area.west && p.lon <= area.east
  }

  /** With the default area every geographic point passes the test. */
  lemma {:induction false} WholeGlobeKeepsAll(p: Point)
    requires -90.0 <= p.lat <= 90.0 && -180.0 <= p.lon <= 180.0
    ensures InBox(WholeGlobe, p)
  {
  }

  /** Python's `round(x)`: the nearest integer, ties to the even one. */
  function RoundHalfEven(x: real): (n: int)
    ensures -0.5 <= n as real - x <= 0.5
    ensures (n as real - x == 0.5 || x - n as real == 0.5) ==> n % 2 == 0
  {
    var f := x.Floor;
    var frac := x - f as real;
    if frac < 0.5 then f
    else if frac > 0.5 then f + 1
    else if f % 2 == 0 then f
    else f + 1
  }

  /** Python's `round(x, 4)` on the exact value of x. */
  function Round4(x: real): (r: real)
    ensures -0.00005 <= r - x <= 0.00005
    ensures (r * 10000.0).Floor as real == r * 10000.0
  {
    RoundHalfEven(x * 10000.0) as real / 10000.0
  }

  /** Rounding an already rounded coordinate changes nothing. */
  lemma {:induction false} Round4Idempotent(x: real)
    ensures Round4(Round4(x)) == Round4(x)
  {
    var n := RoundHalfEven(x * 10000.0);
    assert Round4(x) * 10000.0 == n as real;
    assert (n as real).Floor == n;
  }
}
