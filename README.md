# Haversine distance and coverage matrices

This project is a Dafny model of the numeric kernel of a maximum-coverage
facility-location package, `src/distanceHelpers.cpp`. The kernel does four
things:

- it converts degrees to radians (`deg2rad_cpp`);
- it computes the great-circle distance in metres between two
  latitude/longitude points with the haversine formula on a sphere of radius
  6371 km (`spherical_distance_cpp`);
- it builds the all-pairs distance matrix between a user point set and a
  facility point set (`distance_matrix_cpp`);
- it thresholds that matrix into a 0/1 coverage matrix with an inclusive
  cutoff (`binary_matrix_cpp`).

Two modules make up the model:

- `haversine.dfy`, module `Haversine`: `Deg2Rad`, the haversine
  intermediate `HaversineTerm`, `SphericalDistance`, and the lemmas about
  them. The floating-point routines of `<math.h>` are not reasoned about
  numerically. A `MathLib` value supplies `pi`, `sin`, `cos`, `sqrt` and
  `atan2` as uninterpreted real functions. A lemma that needs a fact about
  one of them (sin 0 = 0, sin is odd, sqrt is non-negative) takes the fact
  as a precondition.
- `matrices.dfy`, module `DistanceMatrices`: the two matrix builders as
  methods on `array2`. Each allocates a fresh matrix and fills it in nested
  `while` loops, as the source does. Beside them are pure specifications
  over tables (`seq<seq<real>>`, one row per point) and lemmas that connect
  the two.

The builders take the point-to-point distance as a parameter
`distance(lat1, long1, lat2, long2)`. The source always calls the haversine
distance, which is `Spherical(m)` here. Keeping the distance abstract in the
builders is what keeps their proofs small. The lemmas that need the
haversine formula itself (`SwappingInputsTransposes`,
`SelfDistancesOnDiagonalAreZero`) use `Spherical(m)`.

Input matrices hold one point per row. Column 0 is read as the latitude and
column 1 as the longitude. The doc comments at
`src/distanceHelpers.cpp:56-57` say "longitude and latitude", but the code
at lines 75-78 reads latitude first; the model follows the code. Further
columns (identifiers, keys) are never read. The user is always the first
point of the distance and the facility the second, so cell (i, j) is the
distance from user i to facility j.

The code does not clamp the haversine intermediate `a` to [0, 1]
(`src/distanceHelpers.cpp:44-46`), although rounding can push it slightly
outside that range, where a square root is taken of a negative number. The
model follows the code: `a` is used as computed. For valid latitudes
`0 <= a` is proved; the non-negativity and half-circumference lemmas take
`a <= 1` as a hypothesis rather than forcing it.

## Model

| member | source | states |
|---|---|---|
| `Haversine.Deg2RadLandmarks` | src/distanceHelpers.cpp:14-16 | Converting 0 degrees gives 0, 180 degrees gives pi and -180 gives -pi. |
| `Haversine.Deg2RadMonotone` | src/distanceHelpers.cpp:14-16 | For a positive pi, one angle in degrees is at most another exactly when its conversion to radians is at most the other's. |
| `Haversine.Deg2RadValidLatitude` | src/distanceHelpers.cpp:14-16 | A latitude in [-90, 90] degrees converts to an angle in [-pi/2, pi/2]. |
| `Haversine.HaversineTermNonNegative` | src/distanceHelpers.cpp:38-44 | For two latitudes in [-90, 90] degrees the intermediate `a` is at least 0, given that cos is non-negative on [-pi/2, pi/2]. |
| `Haversine.SelfDistanceIsZero` | src/distanceHelpers.cpp:30-53 | A point is at distance exactly 0 from itself, given only sin 0 = 0, sqrt 0 = 0, sqrt 1 = 1 and atan2(0, 1) = 0. |
| `Haversine.HaversineTermIsSymmetric` | src/distanceHelpers.cpp:44 | The intermediate `a` is the same with the two points swapped, given that sin is odd. |
| `Haversine.DistanceIsSymmetric` | src/distanceHelpers.cpp:30-53 | Swapping the two points gives exactly the same distance, given that sin is odd. |
| `Haversine.DistanceIsNonNegative` | src/distanceHelpers.cpp:30-53 | Between two latitudes in [-90, 90] degrees the distance is at least 0, given that `a` is at most 1, that cos is non-negative on [-pi/2, pi/2], that sqrt of a non-negative number is non-negative and that atan2 with a non-negative first argument is non-negative. |
| `Haversine.DistanceIsAtMostHalfCircumference` | src/distanceHelpers.cpp:30-53 | Under the same conditions, with atan2 in [0, pi/2] on the first quadrant, the distance lies between 0 and half the circumference of the 6371 km sphere, 6371000 * pi metres. |
| `DistanceMatrices.DistanceRow` | src/distanceHelpers.cpp:74-79 | One row has one entry per facility, and entry j is the distance from the user's (column 0, column 1) to facility j's (column 0, column 1). |
| `DistanceMatrices.DistanceTable` | src/distanceHelpers.cpp:65-84 | The table has one row per user and one column per facility, a zero dimension when either set is empty, and cell (i, j) is the distance from user i to facility j. |
| `DistanceMatrices.DistanceMatrix` | src/distanceHelpers.cpp:65-84 | Returns a fresh matrix of `user` rows by `facility` columns whose cell (i, j) is `distance(user[i,0], user[i,1], facility[j,0], facility[j,1])`; it reads only columns 0 and 1 and writes neither input. |
| `DistanceMatrices.MatchesDistanceTable` | src/distanceHelpers.cpp:73-80 | A matrix meeting `DistanceMatrix`'s postconditions, read row by row, is exactly the distance table of the inputs' rows. |
| `DistanceMatrices.CoverageRow` | src/distanceHelpers.cpp:112-118 | Each entry of a coverage row is 0 or 1, and is 1 exactly when the distance is at most the cutoff. |
| `DistanceMatrices.CoverageTable` | src/distanceHelpers.cpp:111-119 | The coverage table has the distance table's shape; each entry is 0 or 1, and is 1 exactly when that distance is at most the cutoff, so a distance equal to the cutoff is covered. |
| `DistanceMatrices.BinaryMatrix` | src/distanceHelpers.cpp:98-123 | Returns a fresh matrix of the same shape as the distance matrix of the same (facility, user) arguments; every cell is 0 or 1, and cell (i, j) is 1 exactly when the distance from user i to facility j is at most the cutoff. |
| `DistanceMatrices.MatchesCoverageTable` | src/distanceHelpers.cpp:103-119 | A matrix meeting `BinaryMatrix`'s postconditions, read row by row, is exactly the coverage table of the distance table of the inputs' rows. |
| `DistanceMatrices.IdenticalUsersGiveIdenticalRows` | src/distanceHelpers.cpp:73-119 | Two users with the same latitude and longitude get identical rows in the distance table and in the coverage table, whatever their other columns hold. |
| `DistanceMatrices.OnlyCoordinateColumnsMatter` | src/distanceHelpers.cpp:75-78 | Inputs that agree on columns 0 and 1 give the same distance table, however their other columns differ. |
| `DistanceMatrices.NegativeCutoffCoversNothing` | src/distanceHelpers.cpp:113-117 | With a negative cutoff and no negative distance, every coverage entry is 0. |
| `DistanceMatrices.NegativeCutoffCoversNothingOnSphere` | src/distanceHelpers.cpp:98-123 | With the haversine distance and a negative cutoff, the coverage table of users and facilities at valid latitudes is all zeros, given `a <= 1` for every pair and the library facts of `DistanceIsNonNegative`; by `MatchesCoverageTable` this holds of what `BinaryMatrix` builds. |
| `DistanceMatrices.SwappingInputsTransposes` | src/distanceHelpers.cpp:65-84 | With the haversine distance and an odd sin, swapping the facility and user arguments transposes the distance table. |
| `DistanceMatrices.SelfDistancesOnDiagonalAreZero` | src/distanceHelpers.cpp:65-84 | With the haversine distance, the table of a point set against itself has 0 on its diagonal. |

## Left out

- Floating-point behaviour of `sin`, `cos`, `pow`, `sqrt`, `atan2` and
  `M_PI`: rounding, NaN and infinities. They are uninterpreted real
  functions, and `pow(x, 2)` is `x * x`. The model proves no numeric value
  of a distance, such as the roughly 21.2 km between the two test points at
  `src/distanceHelpers.cpp:126-129`.
- NaN from `sqrt(1 - a)` when `a` exceeds 1 (the code does not clamp `a`).
  With NaN neither comparison at `src/distanceHelpers.cpp:113` or 115
  holds, and the cell would keep its allocated value. Over reals the two
  comparisons are complementary, so `BinaryMatrix` uses a plain if/else.
- Rcpp plumbing: the `NumericMatrix` and `IntegerMatrix` types, the
  `[[Rcpp::export]]` attributes and Rcpp's zero-initialisation of new
  matrices. Matrices are plain `array2` values.
- The unused `dist_mat(n1, n2)` that `binary_matrix_cpp` allocates before
  overwriting it with the result of `distance_matrix_cpp`
  (`src/distanceHelpers.cpp:107-109`).
- Out-of-bounds reads: the code does not check that the inputs have two
  columns. Both builders require two columns whenever both inputs have
  rows (`ReadableMatrices`), because only then are columns read.
- An optional precomputed distance matrix for the coverage builder: the
  code always recomputes it (`src/distanceHelpers.cpp:109`).
- The embedded R block (`src/distanceHelpers.cpp:125-209`): comparisons
  against R functions that are not part of this model, table setup and
  benchmarks.
- DistanceMatrices.DistanceMatrix: the postcondition gives every cell its
  value, so every cell is written; that no cell is written twice follows
  from the row-major order of the two loops and is not stated as a
  property.
- Haversine.DistanceIsNonNegative: `a <= 1` is a hypothesis, not derived.
  The source does not clamp `a`, and above 1 it takes the square root of a
  negative number. Deriving the bound would need sin^2 + cos^2 = 1 and the
  cosine of a difference, which the uninterpreted library does not supply.
- Haversine.DistanceIsAtMostHalfCircumference: `a <= 1` is a hypothesis,
  for the same reason.
- DistanceMatrices.NegativeCutoffCoversNothingOnSphere: `a <= 1` for every
  user and facility pair is a hypothesis, for the same reason.
