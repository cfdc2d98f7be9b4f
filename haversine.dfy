/**
 * The great-circle distance kernel: degree-to-radian conversion and the
 * haversine formula on a spherical Earth of mean radius 6371 km.
 *
 * The floating-point functions of <math.h> are not reasoned about
 * numerically. A `MathLib` value supplies pi, sin, cos, sqrt and atan2 as
 * uninterpreted real functions, and every definition here is parameterised
 * by it. A lemma that needs a fact about one of them (sin 0 = 0, sin is odd,
 * sqrt is non-negative, ...) takes that fact as a precondition, so every
 * lemma holds for any library that has the facts it names.
 */
module Haversine {

  /** The parts of <math.h> the kernel uses. `pow(x, 2)` is `Square`. */
  datatype MathLib = MathLib(
    pi: real,
    sin: real -> real,
    cos: real -> real,
    sqrt: real -> real,
    atan2: (real, real) -> real)

  /** Mean Earth radius in kilometres, held in an `int` by the source. */
  const EarthRadiusKm: int := 6371

  /** The distance is computed in kilometres and returned in metres. */
  const MetresPerKm: int := 1000

  /** Degrees to radians: `deg * pi / 180`. */
  function Deg2Rad(m: MathLib, deg: real): real
  {
    deg * m.pi / 180.0
  }

  /** `pow(x, 2)`. */
  function Square(x: real): real
  {
    x * x
  }

  /**
   * The haversine intermediate `a` for two points whose coordinates are
   * already in radians. It is NOT clamped to [0, 1].
   */
  function HaversineTerm(m: MathLib, lat1: real, long1: real, lat2: real, long2: real): real
  {
    Square(m.sin((lat2 - lat1) / 2.0))
      + (m.cos(lat1) * m.cos(lat2)) * Square(m.sin((long2 - long1) / 2.0))
  }

  /**
   * Distance in metres from (lat1, long1) to (lat2, long2), all four in
   * degrees: convert the four angles, form `a`, take the central angle
   * `2 * atan2(sqrt(a), sqrt(1 - a))`, scale by the radius, then by 1000.
   */
  function SphericalDistance(m: MathLib, lat1: real, long1: real, lat2: real, long2: real): real
  {
    var rlat1 := Deg2Rad(m, lat1);
    var rlong1 := Deg2Rad(m, long1);
    var rlat2 := Deg2Rad(m, lat2);
    var rlong2 := Deg2Rad(m, long2);
    var a := HaversineTerm(m, rlat1, rlong1, rlat2, rlong2);
    var km := 2.0 * m.atan2(m.sqrt(a), m.sqrt(1.0 - a)) * (EarthRadiusKm as real);
    km * (MetresPerKm as real)
  }

  /** A point-to-point distance, `distance(lat1, long1, lat2, long2)`. */
  type DistanceFunction = (real, real, real, real) -> real

  /** The haversine distance as the function the matrix builders call. */
  function Spherical(m: MathLib): DistanceFunction
  {
    (lat1, long1, lat2, long2) => SphericalDistance(m, lat1, long1, lat2, long2)
  }

  /** sin is odd: sin(-y) == -sin(y). */
  ghost predicate SinIsOdd(m: MathLib)
  {
    forall x, y :: x == -y ==> m.sin(x) == -m.sin(y)
  }

  /** sqrt of a non-negative number is non-negative. */
  ghost predicate SqrtIsNonNegative(m: MathLib)
  {
    forall x :: 0.0 <= x ==> 0.0 <= m.sqrt(x)
  }

  /** atan2(y, x) is non-negative whenever y >= 0. */
  ghost predicate Atan2UpperHalf(m: MathLib)
  {
    forall y, x :: 0.0 <= y ==> 0.0 <= m.atan2(y, x)
  }

  /** atan2(y, x) lies in [0, pi/2] whenever y >= 0 and x >= 0. */
  ghost predicate Atan2FirstQuadrant(m: MathLib)
  {
    forall y, x :: 0.0 <= y && 0.0 <= x ==> 0.0 <= m.atan2(y, x) <= m.pi / 2.0
  }

  /** cos is non-negative on [-pi/2, pi/2]. */
  ghost predicate CosNonNegativeOnHalfTurn(m: MathLib)
  {
    forall x :: -m.pi / 2.0 <= x <= m.pi / 2.0 ==> 0.0 <= m.cos(x)
  }

  /** A latitude in degrees lies in [-90, 90]. */
  predicate ValidLatitude(lat: real)
  {
    -90.0 <= lat <= 90.0
  }

  /** The two landmarks of the conversion: 0 degrees and a half turn. */
  lemma Deg2RadLandmarks(m: MathLib)
    ensures Deg2Rad(m, 0.0) == 0.0
    ensures Deg2Rad(m, 180.0) == m.pi
    ensures Deg2Rad(m, -180.0) == -m.pi
  {
  }

  /** For a positive pi the conversion preserves order, in both directions. */
  lemma Deg2RadMonotone(m: MathLib, d1: real, d2: real)
    requires 0.0 < m.pi
    ensures d1 <= d2 <==> Deg2Rad(m, d1) <= Deg2Rad(m, d2)
  {
    assert Deg2Rad(m, d2) - Deg2Rad(m, d1) == (d2 - d1) * (m.pi / 180.0);
  }

  /** A valid latitude converts to an angle in [-pi/2, pi/2]. */
  lemma Deg2RadValidLatitude(m: MathLib, lat: real)
    requires 0.0 < m.pi
    requires ValidLatitude(lat)
    ensures -m.pi / 2.0 <= Deg2Rad(m, lat) <= m.pi / 2.0
  {
    Deg2RadMonotone(m, -90.0, lat);
    Deg2RadMonotone(m, lat, 90.0);
  }

  /**
   * For two valid latitudes the haversine intermediate is non-negative: both
   * cosines are, and the other factors are squares.
   */
  lemma HaversineTermNonNegative(m: MathLib, lat1: real, long1: real, lat2: real, long2: real)
    requires 0.0 < m.pi && CosNonNegativeOnHalfTurn(m)
    requires ValidLatitude(lat1) && ValidLatitude(lat2)
    ensures 0.0 <= HaversineTerm(m, Deg2Rad(m, lat1), Deg2Rad(m, long1), Deg2Rad(m, lat2), Deg2Rad(m, long2))
  {
    var rlat1, rlat2 := Deg2Rad(m, lat1), Deg2Rad(m, lat2);
    Deg2RadValidLatitude(m, lat1);
    Deg2RadValidLatitude(m, lat2);
    var c := m.cos(rlat1) * m.cos(rlat2);
    assert 0.0 <= c by {
      assert 0.0 <= m.cos(rlat1) && 0.0 <= m.cos(rlat2);
    }
    var s := Square(m.sin((Deg2Rad(m, long2) - Deg2Rad(m, long1)) / 2.0));
    assert 0.0 <= c * s;
  }

  /**
   * A point is at distance exactly 0 from itself, given only that
   * sin 0 = 0, sqrt 0 = 0, sqrt 1 = 1 and atan2(0, 1) = 0.
   */
  lemma SelfDistanceIsZero(m: MathLib, lat: real, long: real)
    requires m.sin(0.0) == 0.0
    requires m.sqrt(0.0) == 0.0 && m.sqrt(1.0) == 1.0
    requires m.atan2(0.0, 1.0) == 0.0
    ensures SphericalDistance(m, lat, long, lat, long) == 0.0
  {
    var rlat, rlong := Deg2Rad(m, lat), Deg2Rad(m, long);
    assert (rlat - rlat) / 2.0 == 0.0 && (rlong - rlong) / 2.0 == 0.0;
    assert HaversineTerm(m, rlat, rlong, rlat, rlong) == 0.0;
  }

  /**
   * The haversine term does not depend on which point comes first, given
   * that sin is odd: both differences change sign, and their sines are
   * squared.
   */
  lemma HaversineTermIsSymmetric(m: MathLib, lat1: real, long1: real, lat2: real, long2: real)
    requires SinIsOdd(m)
    ensures HaversineTerm(m, lat1, long1, lat2, long2) == HaversineTerm(m, lat2, long2, lat1, long1)
  {
    var dlat, dlong := m.sin((lat2 - lat1) / 2.0), m.sin((long2 - long1) / 2.0);
    assert m.sin((lat1 - lat2) / 2.0) == -dlat;
    assert m.sin((long1 - long2) / 2.0) == -dlong;
    assert Square(-dlat) == Square(dlat) && Square(-dlong) == Square(dlong);
  }

  /** Swapping the two points gives exactly the same distance. */
  lemma DistanceIsSymmetric(m: MathLib, lat1: real, long1: real, lat2: real, long2: real)
    requires SinIsOdd(m)
    ensures SphericalDistance(m, lat1, long1, lat2, long2) == SphericalDistance(m, lat2, long2, lat1, long1)
  {
    HaversineTermIsSymmetric(m, Deg2Rad(m, lat1), Deg2Rad(m, long1), Deg2Rad(m, lat2), Deg2Rad(m, long2));
  }

  /**
   * Between two valid latitudes the distance is non-negative. The source
   * does not clamp `a`, so `a <= 1` is a hypothesis: above 1 the source
   * takes the square root of a negative number.
   */
  lemma DistanceIsNonNegative(m: MathLib, lat1: real, long1: real, lat2: real, long2: real)
    requires 0.0 < m.pi && CosNonNegativeOnHalfTurn(m)
    requires SqrtIsNonNegative(m) && Atan2UpperHalf(m)
    requires ValidLatitude(lat1) && ValidLatitude(lat2)
    requires HaversineTerm(m, Deg2Rad(m, lat1), Deg2Rad(m, long1), Deg2Rad(m, lat2), Deg2Rad(m, long2)) <= 1.0
    ensures 0.0 <= SphericalDistance(m, lat1, long1, lat2, long2)
  {
    var a := HaversineTerm(m, Deg2Rad(m, lat1), Deg2Rad(m, long1), Deg2Rad(m, lat2), Deg2Rad(m, long2));
    HaversineTermNonNegative(m, lat1, long1, lat2, long2);
    assert 0.0 <= m.sqrt(a);
    assert 0.0 <= m.atan2(m.sqrt(a), m.sqrt(1.0 - a));
  }

  /**
   * Between two valid latitudes the distance is at most half the
   * circumference of the 6371 km sphere, 6371000 * pi metres, when atan2
   * keeps to [0, pi/2] on the first quadrant. As above, `a <= 1` is a
   * hypothesis.
   */
  lemma DistanceIsAtMostHalfCircumference(m: MathLib, lat1: real, long1: real, lat2: real, long2: real)
    requires 0.0 < m.pi && CosNonNegativeOnHalfTurn(m)
    requires SqrtIsNonNegative(m) && Atan2FirstQuadrant(m)
    requires ValidLatitude(lat1) && ValidLatitude(lat2)
    requires HaversineTerm(m, Deg2Rad(m, lat1), Deg2Rad(m, long1), Deg2Rad(m, lat2), Deg2Rad(m, long2)) <= 1.0
    ensures 0.0 <= SphericalDistance(m, lat1, long1, lat2, long2) <= 6371000.0 * m.pi
  {
    var a := HaversineTerm(m, Deg2Rad(m, lat1), Deg2Rad(m, long1), Deg2Rad(m, lat2), Deg2Rad(m, long2));
    HaversineTermNonNegative(m, lat1, long1, lat2, long2);
    assert 0.0 <= m.sqrt(a) && 0.0 <= m.sqrt(1.0 - a);
    var t := m.atan2(m.sqrt(a), m.sqrt(1.0 - a));
    assert 0.0 <= t <= m.pi / 2.0;
    assert SphericalDistance(m, lat1, long1, lat2, long2) == 2.0 * t * 6371000.0;
  }
}
