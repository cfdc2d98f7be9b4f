/**
 * The all-pairs distance matrix and the coverage (binary) matrix built from
 * it by an inclusive distance cutoff.
 *
 * Input matrices hold one point per row: column 0 is the latitude, column 1
 * the longitude, in degrees; any further columns (identifiers, keys) are
 * never read. The builders take the point-to-point distance as a parameter
 * `distance(lat1, long1, lat2, long2)`; the system passes the haversine
 * distance, `Spherical(m)`. The user is always the first point and the
 * facility the second.
 *
 * The builders are methods that allocate a fresh `array2` and fill it cell
 * by cell in nested loops, row-major; their postconditions give every cell.
 * The pure specifications over tables (`seq<seq<real>>`) are defined row by
 * row in the order the loops fill the matrix, and `MatchesDistanceTable` and
 * `MatchesCoverageTable` show that a matrix meeting a builder's
 * postconditions is exactly the corresponding table, so the lemmas about the
 * tables hold of the builders' results.
 */
module DistanceMatrices {
  import opened Haversine

  /** A coordinate table as a sequence of rows. */
  type Table = seq<seq<real>>

  /** Every row has a latitude and a longitude column. */
  predicate Wide(t: Table)
  {
    forall k :: 0 <= k < |t| ==> |t[k]| >= 2
  }

  /**
   * Coordinates are read only for (user, facility) pairs, so two columns
   * are needed only when both tables have rows.
   */
  predicate Readable(facility: Table, user: Table)
  {
    facility == [] || user == [] || (Wide(facility) && Wide(user))
  }

  /**
   * Distances from the user point `u` to every facility, in facility order:
   * the user is always the first point of the distance function.
   */
  function DistanceRow(distance: DistanceFunction, facility: Table, u: seq<real>): (row: seq<real>)
    requires facility == [] || (|u| >= 2 && Wide(facility))
    ensures |row| == |facility|
    ensures forall j :: 0 <= j < |facility| ==>
              row[j] == distance(u[0], u[1], facility[j][0], facility[j][1])
    decreases |facility|
  {
    if facility == [] then []
    else
      var last := |facility| - 1;
      DistanceRow(distance, facility[..last], u)
        + [distance(u[0], u[1], facility[last][0], facility[last][1])]
  }

  /**
   * The distance table: one row per user, one column per facility, cell
   * (i, j) the distance from user i to facility j.
   */
  function DistanceTable(distance: DistanceFunction, facility: Table, user: Table): (d: seq<seq<real>>)
    requires Readable(facility, user)
    ensures |d| == |user|
    ensures forall i :: 0 <= i < |user| ==> |d[i]| == |facility|
    ensures forall i, j :: 0 <= i < |user| && 0 <= j < |facility| ==>
              d[i][j] == distance(user[i][0], user[i][1], facility[j][0], facility[j][1])
    decreases |user|
  {
    if user == [] then []
    else
      var last := |user| - 1;
      DistanceTable(distance, facility, user[..last]) + [DistanceRow(distance, facility, user[last])]
  }

  /** The coverage indicator of one distance: 1 when it is at most the cutoff, else 0. */
  function Covers(distance: real, cutoff: real): int
  {
    if distance <= cutoff then 1 else 0
  }

  /** The coverage indicators of one row of distances. */
  function CoverageRow(row: seq<real>, cutoff: real): (c: seq<int>)
    ensures |c| == |row|
    ensures forall j :: 0 <= j < |row| ==> c[j] == 0 || c[j] == 1
    ensures forall j :: 0 <= j < |row| ==> (c[j] == 1 <==> row[j] <= cutoff)
    decreases |row|
  {
    if row == [] then []
    else
      var last := |row| - 1;
      CoverageRow(row[..last], cutoff) + [Covers(row[last], cutoff)]
  }

  /** The coverage table of a distance table: same shape, inclusive cutoff. */
  function CoverageTable(dist: seq<seq<real>>, cutoff: real): (c: seq<seq<int>>)
    ensures |c| == |dist|
    ensures forall i :: 0 <= i < |dist| ==> |c[i]| == |dist[i]|
    ensures forall i, j :: 0 <= i < |dist| && 0 <= j < |dist[i]| ==> c[i][j] == 0 || c[i][j] == 1
    ensures forall i, j :: 0 <= i < |dist| && 0 <= j < |dist[i]| ==> (c[i][j] == 1 <==> dist[i][j] <= cutoff)
    decreases |dist|
  {
    if dist == [] then []
    else
      var last := |dist| - 1;
      CoverageTable(dist[..last], cutoff) + [CoverageRow(dist[last], cutoff)]
  }

  /** Two rows agree on the coordinate columns 0 and 1. */
  predicate SameCoordinates(a: seq<real>, b: seq<real>)
    requires |a| >= 2 && |b| >= 2
  {
    a[0] == b[0] && a[1] == b[1]
  }

  /**
   * Two users at the same coordinates get identical rows, in the distance
   * table and in the coverage table, whatever their other columns hold.
   */
  lemma IdenticalUsersGiveIdenticalRows(distance: DistanceFunction, facility: Table, user: Table, cutoff: real, i1: nat, i2: nat)
    requires Wide(facility) && Wide(user)
    requires i1 < |user| && i2 < |user|
    requires SameCoordinates(user[i1], user[i2])
    ensures DistanceTable(distance, facility, user)[i1] == DistanceTable(distance, facility, user)[i2]
    ensures CoverageTable(DistanceTable(distance, facility, user), cutoff)[i1]
         == CoverageTable(DistanceTable(distance, facility, user), cutoff)[i2]
  {
  }

  /** Row-wise agreement on the coordinate columns. */
  predicate SameCoordinateColumns(t: Table, t': Table)
    requires Wide(t) && Wide(t')
  {
    |t| == |t'| && forall k :: 0 <= k < |t| ==> SameCoordinates(t[k], t'[k])
  }

  /**
   * Only columns 0 and 1 of either input matter: tables that agree there
   * give the same distance table, however their other columns differ.
   */
  lemma OnlyCoordinateColumnsMatter(distance: DistanceFunction, facility: Table, user: Table, facility': Table, user': Table)
    requires Wide(facility) && Wide(user) && Wide(facility') && Wide(user')
    requires SameCoordinateColumns(facility, facility') && SameCoordinateColumns(user, user')
    ensures DistanceTable(distance, facility, user) == DistanceTable(distance, facility', user')
  {
    var d, d' := DistanceTable(distance, facility, user), DistanceTable(distance, facility', user');
    forall i | 0 <= i < |user| ensures d[i] == d'[i] {
      forall j | 0 <= j < |facility| ensures d[i][j] == d'[i][j] {
        assert SameCoordinates(user[i], user'[i]) && SameCoordinates(facility[j], facility'[j]);
      }
    }
  }

  /**
   * A negative cutoff covers nothing when no distance is negative: every
   * coverage entry is 0.
   */
  lemma NegativeCutoffCoversNothing(dist: seq<seq<real>>, cutoff: real)
    requires cutoff < 0.0
    requires forall i, j :: 0 <= i < |dist| && 0 <= j < |dist[i]| ==> 0.0 <= dist[i][j]
    ensures forall i, j :: 0 <= i < |dist| && 0 <= j < |dist[i]| ==> CoverageTable(dist, cutoff)[i][j] == 0
  {
  }

  /** Every row's latitude (column 0) is a valid latitude. */
  predicate ValidLatitudes(t: Table)
    requires Wide(t)
  {
    forall k :: 0 <= k < |t| ==> ValidLatitude(t[k][0])
  }

  /** The haversine intermediate is at most 1 for every (user, facility) pair. */
  ghost predicate TermsAtMostOne(m: MathLib, facility: Table, user: Table)
    requires Wide(facility) && Wide(user)
  {
    forall i, j :: 0 <= i < |user| && 0 <= j < |facility| ==>
      HaversineTerm(m, Deg2Rad(m, user[i][0]), Deg2Rad(m, user[i][1]),
                       Deg2Rad(m, facility[j][0]), Deg2Rad(m, facility[j][1])) <= 1.0
  }

  /**
   * With the haversine distance, a negative cutoff covers no (user, facility)
   * pair at valid latitudes: the coverage table is all zeros.
   */
  lemma NegativeCutoffCoversNothingOnSphere(m: MathLib, facility: Table, user: Table, cutoff: real)
    requires 0.0 < m.pi && CosNonNegativeOnHalfTurn(m)
    requires SqrtIsNonNegative(m) && Atan2UpperHalf(m)
    requires Wide(facility) && Wide(user)
    requires ValidLatitudes(facility) && ValidLatitudes(user)
    requires TermsAtMostOne(m, facility, user)
    requires cutoff < 0.0
    ensures forall i, j :: 0 <= i < |user| && 0 <= j < |facility| ==>
              CoverageTable(DistanceTable(Spherical(m), facility, user), cutoff)[i][j] == 0
  {
    var d := DistanceTable(Spherical(m), facility, user);
    forall i, j | 0 <= i < |d| && 0 <= j < |d[i]| ensures 0.0 <= d[i][j] {
      DistanceIsNonNegative(m, user[i][0], user[i][1], facility[j][0], facility[j][1]);
    }
    NegativeCutoffCoversNothing(d, cutoff);
  }

  /**
   * With the haversine distance, swapping the two inputs transposes the
   * matrix: the user-to-facility distance equals the facility-to-user one.
   */
  lemma SwappingInputsTransposes(m: MathLib, facility: Table, user: Table)
    requires SinIsOdd(m)
    requires Wide(facility) && Wide(user)
    ensures forall i, j :: 0 <= i < |user| && 0 <= j < |facility| ==>
              DistanceTable(Spherical(m), facility, user)[i][j] == DistanceTable(Spherical(m), user, facility)[j][i]
  {
    var d, t := DistanceTable(Spherical(m), facility, user), DistanceTable(Spherical(m), user, facility);
    forall i, j | 0 <= i < |user| && 0 <= j < |facility| ensures d[i][j] == t[j][i] {
      DistanceIsSymmetric(m, user[i][0], user[i][1], facility[j][0], facility[j][1]);
    }
  }

  /**
   * With the haversine distance, the matrix of a point set against itself
   * has zeros on its diagonal.
   */
  lemma SelfDistancesOnDiagonalAreZero(m: MathLib, points: Table)
    requires m.sin(0.0) == 0.0
    requires m.sqrt(0.0) == 0.0 && m.sqrt(1.0) == 1.0
    requires m.atan2(0.0, 1.0) == 0.0
    requires Wide(points)
    ensures forall i :: 0 <= i < |points| ==> DistanceTable(Spherical(m), points, points)[i][i] == 0.0
  {
    var d := DistanceTable(Spherical(m), points, points);
    forall i | 0 <= i < |points| ensures d[i][i] == 0.0 {
      SelfDistanceIsZero(m, points[i][0], points[i][1]);
    }
  }

  /** The contents of a two-dimensional array, row by row. */
  ghost function Rows<T>(a: array2<T>): seq<seq<T>>
    reads a
  {
    seq(a.Length0, i requires 0 <= i < a.Length0 reads a =>
      seq(a.Length1, j requires 0 <= j < a.Length1 reads a => a[i, j]))
  }

  /** The requirement on the input shapes, stated on the arrays. */
  predicate ReadableMatrices(facility: array2<real>, user: array2<real>)
  {
    facility.Length0 == 0 || user.Length0 == 0 || (facility.Length1 >= 2 && user.Length1 >= 2)
  }

  /**
   * Builds the `user.Length0 x facility.Length0` matrix whose cell (i, j) is
   * the distance from user i to facility j. Neither input is written.
   */
  method DistanceMatrix(distance: DistanceFunction, facility: array2<real>, user: array2<real>) returns (dist: array2<real>)
    requires ReadableMatrices(facility, user)
    ensures fresh(dist)
    ensures dist.Length0 == user.Length0 && dist.Length1 == facility.Length0
    ensures forall i, j :: 0 <= i < dist.Length0 && 0 <= j < dist.Length1 ==>
              dist[i, j] == distance(user[i, 0], user[i, 1], facility[j, 0], facility[j, 1])
  {
    var n1 := user.Length0;
    var n2 := facility.Length0;
    dist := new real[n1, n2];
    var i := 0;
    while i < n1
      invariant 0 <= i <= n1
      invariant forall r, c :: 0 <= r < i && 0 <= c < n2 ==>
                  dist[r, c] == distance(user[r, 0], user[r, 1], facility[c, 0], facility[c, 1])
      modifies dist
    {
      var j := 0;
      while j < n2
        invariant 0 <= j <= n2
        invariant forall r, c :: 0 <= r < i && 0 <= c < n2 ==>
                    dist[r, c] == distance(user[r, 0], user[r, 1], facility[c, 0], facility[c, 1])
        invariant forall c :: 0 <= c < j ==>
                    dist[i, c] == distance(user[i, 0], user[i, 1], facility[c, 0], facility[c, 1])
        modifies dist
      {
        dist[i, j] := distance(user[i, 0], user[i, 1], facility[j, 0], facility[j, 1]);
        j := j + 1;
      }
      i := i + 1;
    }
  }

  /** A matrix holding every user-to-facility distance is the distance table. */
  lemma MatchesDistanceTable(distance: DistanceFunction, facility: array2<real>, user: array2<real>, dist: array2<real>)
    requires ReadableMatrices(facility, user)
    requires dist.Length0 == user.Length0 && dist.Length1 == facility.Length0
    requires forall i, j :: 0 <= i < dist.Length0 && 0 <= j < dist.Length1 ==>
               dist[i, j] == distance(user[i, 0], user[i, 1], facility[j, 0], facility[j, 1])
    ensures Readable(Rows(facility), Rows(user))
    ensures Rows(dist) == DistanceTable(distance, Rows(facility), Rows(user))
  {
    var f, u := Rows(facility), Rows(user);
    assert Readable(f, u);
    var r, d := Rows(dist), DistanceTable(distance, f, u);
    forall i, j | 0 <= i < |u| && 0 <= j < |f| ensures r[i][j] == d[i][j] {
      assert u[i][0] == user[i, 0] && u[i][1] == user[i, 1];
      assert f[j][0] == facility[j, 0] && f[j][1] == facility[j, 1];
    }
    EqualTables(r, d);
  }

  /**
   * Builds the coverage matrix: the distance matrix of the same two inputs,
   * in the same argument order, thresholded so that cell (i, j) is 1 exactly
   * when that distance is at most `cutoff` (a distance equal to the cutoff is
   * covered) and 0 otherwise.
   */
  method BinaryMatrix(distance: DistanceFunction, facility: array2<real>, user: array2<real>, cutoff: real)
    returns (bin: array2<int>)
    requires ReadableMatrices(facility, user)
    ensures fresh(bin)
    ensures bin.Length0 == user.Length0 && bin.Length1 == facility.Length0
    ensures forall i, j :: 0 <= i < bin.Length0 && 0 <= j < bin.Length1 ==> bin[i, j] == 0 || bin[i, j] == 1
    ensures forall i, j :: 0 <= i < bin.Length0 && 0 <= j < bin.Length1 ==>
              (bin[i, j] == 1 <==> distance(user[i, 0], user[i, 1], facility[j, 0], facility[j, 1]) <= cutoff)
  {
    var n1 := user.Length0;
    var n2 := facility.Length0;
    bin := new int[n1, n2];
    var dist := DistanceMatrix(distance, facility, user);
    var i := 0;
    while i < n1
      invariant 0 <= i <= n1
      invariant forall r, c :: 0 <= r < i && 0 <= c < n2 ==> bin[r, c] == Covers(dist[r, c], cutoff)
      modifies bin
    {
      var j := 0;
      while j < n2
        invariant 0 <= j <= n2
        invariant forall r, c :: 0 <= r < i && 0 <= c < n2 ==> bin[r, c] == Covers(dist[r, c], cutoff)
        invariant forall c :: 0 <= c < j ==> bin[i, c] == Covers(dist[i, c], cutoff)
        modifies bin
      {
        if dist[i, j] <= cutoff {
          bin[i, j] := 1;
        } else {
          bin[i, j] := 0;
        }
        j := j + 1;
      }
      i := i + 1;
    }
  }

  /**
   * A matrix holding, for every user and facility, 1 when their distance is
   * at most `cutoff` and 0 otherwise is the coverage table of the distance
   * table.
   */
  lemma MatchesCoverageTable(distance: DistanceFunction, facility: array2<real>, user: array2<real>, cutoff: real, bin: array2<int>)
    requires ReadableMatrices(facility, user)
    requires bin.Length0 == user.Length0 && bin.Length1 == facility.Length0
    requires forall i, j :: 0 <= i < bin.Length0 && 0 <= j < bin.Length1 ==> bin[i, j] == 0 || bin[i, j] == 1
    requires forall i, j :: 0 <= i < bin.Length0 && 0 <= j < bin.Length1 ==>
               (bin[i, j] == 1 <==> distance(user[i, 0], user[i, 1], facility[j, 0], facility[j, 1]) <= cutoff)
    ensures Readable(Rows(facility), Rows(user))
    ensures Rows(bin) == CoverageTable(DistanceTable(distance, Rows(facility), Rows(user)), cutoff)
  {
    var f, u := Rows(facility), Rows(user);
    assert Readable(f, u);
    var d := DistanceTable(distance, f, u);
    var r, c := Rows(bin), CoverageTable(d, cutoff);
    forall i, j | 0 <= i < |u| && 0 <= j < |f| ensures r[i][j] == c[i][j] {
      assert u[i][0] == user[i, 0] && u[i][1] == user[i, 1];
      assert f[j][0] == facility[j, 0] && f[j][1] == facility[j, 1];
      assert c[i][j] == 1 <==> d[i][j] <= cutoff;
    }
    EqualTables(r, c);
  }

  /** Two tables of the same shape that agree cell by cell are equal. */
  lemma EqualTables<T>(a: seq<seq<T>>, b: seq<seq<T>>)
    requires |a| == |b|
    requires forall i :: 0 <= i < |a| ==> |a[i]| == |b[i]|
    requires forall i, j :: 0 <= i < |a| && 0 <= j < |a[i]| ==> a[i][j] == b[i][j]
    ensures a == b
  {
    forall i | 0 <= i < |a| ensures a[i] == b[i] {
      assert |a[i]| == |b[i]|;
    }
  }
}
