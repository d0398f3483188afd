# Grid points and compass directions

A model of the coordinate core of a small Rust grid-utility crate:

- the `GridPoint` capability: a point's row-major index in a grid of a given
  width, axis moves (`up`, `down`, `left`, `right`), `offset`, and the
  Manhattan, Chebyshev and squared-Euclidean distances. It also covers `len`
  and the `adj_4` / `adj_8` adjacency iterators;
- the `AdjIterator` cursor, which yields `origin + table[i]` in table order
  and then nothing forever;
- the `Size2d` capability: width, height and area, `width * height`;
- the direction constants `UP` … `DOWN_RIGHT`, the ordered tables `DIR_4` and
  `DIR_8`, and the two enumerations `GridCompassQuadrant` (4 directions) and
  `GridCompassOctant` (8 directions). Each enumeration maps a value to an
  index, an index back to a value, a value to its offset, and a point to a
  value by the signs of the point's coordinates.

Layout:

- `vec2.dfy`: module `Wrappers`, which holds `Option`. Module `Vec2`, which
  holds the `IVec2` datatype and the vector operations the crate takes from
  its math library: componentwise absolute value and sign, largest component,
  squared length. It also has small arithmetic lemmas.
- `directions.dfy`: module `Directions`, for `src/directions.rs`.
- `point.dfy`: for `src/point.rs`. It holds module `Size2d`, for the
  `Size2d` trait, and module `GridPoint`, for the `GridPoint` trait,
  `AdjIterator`, and the adjacency scenario of the crate's tests. `Size2d` is
  a module of its own because `GridPoint`'s index lemmas speak of the area.

The Rust sources import each other in a cycle: `point.rs` uses the direction
tables, and `directions.rs` uses `GridPoint`. Dafny modules cannot form a
cycle, so `IVec2` gets a module of its own that both sides import.

The source converts a point to its integer vector through single-precision
floats (`as_ivec2`, src/point.rs:15-23). This model treats that round trip
as the identity. That is exact for coordinates whose magnitude is at most
2^24, since every such integer is an exact `f32`. Coordinates are also
unbounded integers: `i32` overflow is a separate gap, listed under
"## Left out", and it can occur even within that range. The sign-pattern
classification (`from_point`) is exact for every `i32`, because
rounding to `f32` never changes an integer's sign or turns a nonzero integer
into zero.

## Model

| member | source | states |
|---|---|---|
| `Directions.QuadrantToVec` | src/directions.rs:32-41 | the offset of every quadrant direction is an entry of `DIR_4` |
| `Directions.QuadrantFromPoint` | src/directions.rs:45-53 | a direction is returned exactly when the point's sign vector is an entry of `DIR_4`, and the returned direction's offset is that sign vector |
| `Directions.QuadrantFromIndex` | src/directions.rs:56-64 | a direction is returned exactly for indices below 4; `None` for every index of 4 or more |
| `Directions.QuadrantToIndex` | src/directions.rs:67-74 | the index is below 4, and `DIR_4` at that index is the direction's offset (table order matches index order) |
| `Directions.QuadrantIndexBijection` | src/directions.rs:56-74 | `from_index(i) == Some(d)` if and only if `to_index(d) == i`, which covers both round trips |
| `Directions.QuadrantFromPointOfVec` | src/directions.rs:32-53 | classifying a direction's own offset gives that direction back |
| `Directions.QuadrantFromPointDefined` | src/directions.rs:45-53 | a point has a quadrant direction exactly when one coordinate is zero and the other is not; so `(0,0)` and every diagonal point such as `(3,3)` give `None` |
| `Directions.QuadrantFromPointScale` | src/directions.rs:45-53 | classification is unchanged when the point is scaled by any positive factor |
| `Directions.OctantToVec` | src/directions.rs:136-149 | the offset of every octant direction is an entry of `DIR_8` |
| `Directions.OctantFromPoint` | src/directions.rs:92-104 | a direction is returned exactly when the point's sign vector is an entry of `DIR_8`, and the returned direction's offset is that sign vector |
| `Directions.OctantFromIndex` | src/directions.rs:107-119 | a direction is returned exactly for indices below 8; `None` for every index of 8 or more |
| `Directions.OctantToIndex` | src/directions.rs:122-133 | the index is below 8, and `DIR_8` at that index is the direction's offset |
| `Directions.OctantIndexBijection` | src/directions.rs:107-133 | `from_index(i) == Some(d)` if and only if `to_index(d) == i` |
| `Directions.OctantFromPointOfVec` | src/directions.rs:92-149 | classifying a direction's own offset gives that direction back |
| `Directions.OctantFromPointDefined` | src/directions.rs:92-104 | every point except `(0,0)` has an octant direction |
| `Directions.OctantFromPointScale` | src/directions.rs:92-104 | classification is unchanged when the point is scaled by any positive factor |
| `Directions.QuadrantToOctant` | src/directions.rs:79-88 | the octant variant with the same name as a quadrant variant has the same offset and the same index |
| `Directions.QuadrantOctantAgree` | src/directions.rs:45-104 | if the quadrant classification returns a direction, the octant classification returns the variant with the same name; if the octant classification returns an orthogonal direction, the quadrant classification returns its namesake |
| `Directions.DirectionTables` | src/directions.rs:6-21 | `DIR_4` is the first four entries of `DIR_8`; the eight entries are distinct and nonzero, with components in {-1, 0, 1}; every nonzero unit step is one of them; each `DIR_4` entry has Manhattan length 1 |
| `Vec2.AbsInt` | src/point.rs:158 | the result is non-negative and equals the integer or its negation (the `abs` of a difference) |
| `Vec2.Abs` | src/point.rs:158 | both components are non-negative, and the result is zero exactly when the vector is zero |
| `Vec2.Sign` | src/directions.rs:46 | the sign is -1, 0 or 1; it is 0 exactly for 0 and 1 exactly for positive integers |
| `Vec2.Signum` | src/directions.rs:46 | the componentwise sign is a unit step, zero on exactly the axes where the vector is zero, and 1 on exactly the positive axes |
| `Vec2.MaxElement` | src/point.rs:167 | the result is at least both components and equals one of them |
| `Vec2.LengthSquared` | src/point.rs:175 | the squared length is non-negative, and zero exactly for the zero vector |
| `Size2d.Len` | src/point.rs:278-286 | for a width `s.x` and height `s.y`, the area is zero exactly when the width or the height is zero, and otherwise is at least each of them |
| `GridPoint.Len` | src/point.rs:100-102 | the product of the coordinates is zero exactly when one coordinate is zero |
| `GridPoint.LenIsArea` | src/point.rs:100-102 | for non-negative coordinates, a point's `len` equals the `Size2d` area of the same pair |
| `GridPoint.AsIndex` | src/point.rs:104-108 | for `0 <= x < w` and `y >= 0`, dividing `as_index(p, w)` by `w` gives `y` and the remainder is `x` |
| `GridPoint.AsIndexInjective` | src/point.rs:104-108 | two points with `0 <= x < w` and the same index are equal |
| `GridPoint.AsIndexInBounds` | src/point.rs:104-108 | the index of every cell of a `w` by `h` grid is below `w * h` |
| `GridPoint.AsIndexCovers` | src/point.rs:104-108 | every index `k` below `w * h` is the index of the cell `(k % w, k / w)`, which lies in the grid |
| `GridPoint.Up` | src/point.rs:118-121 | the column is unchanged, and the result is the point offset by `amount` times `UP` |
| `GridPoint.Down` | src/point.rs:123-126 | the column is unchanged; the result is the point offset by `amount` times `DOWN`, which is `up(-amount)` |
| `GridPoint.Right` | src/point.rs:128-132 | the row is unchanged, and the result is the point offset by `amount` times `RIGHT` |
| `GridPoint.Left` | src/point.rs:134-138 | the row is unchanged; the result is the point offset by `amount` times `LEFT`, which is `right(-amount)` |
| `GridPoint.Offset` | src/point.rs:140-143 | the displacement from the point to the result is exactly the given offset |
| `GridPoint.AxisMoves` | src/point.rs:118-143 | vertical moves keep `x` and horizontal moves keep `y`; each move is an offset by `amount` times its direction constant; `up(n) == down(-n)` and `right(n) == left(-n)`; a move by 0 is the identity |
| `GridPoint.AxisMovesInverse` | src/point.rs:118-138 | `down(up(p, n), n) == p`, and likewise for the other three pairs of opposite moves |
| `GridPoint.AxisMoveDistance` | src/point.rs:118-168 | a move by `n` is at Manhattan and Chebyshev distance `abs(n)` from the start |
| `GridPoint.OffsetLaws` | src/point.rs:140-143 | offsetting by `(0,0)` is the identity; offsetting by `-d` undoes offsetting by `d`; successive offsets add up; offset is commutative |
| `GridPoint.Manhattan` | src/point.rs:154-160 | the distance is zero exactly when the points are equal |
| `GridPoint.Chebyshev` | src/point.rs:162-168 | the distance is zero exactly when the points are equal, and is at least the absolute difference on each axis |
| `GridPoint.EuclideanSquared` | src/point.rs:170-176 | the squared distance is non-negative, and zero exactly when the points are equal |
| `GridPoint.DistanceSymmetry` | src/point.rs:154-176 | all three metrics are symmetric in their two points |
| `GridPoint.DistanceTranslation` | src/point.rs:140-176 | all three metrics are unchanged when both points get the same offset |
| `GridPoint.ManhattanTriangle` | src/point.rs:154-160 | the Manhattan distance satisfies the triangle inequality |
| `GridPoint.MetricBounds` | src/point.rs:154-176 | `chebyshev <= manhattan <= 2 * chebyshev`; `chebyshev^2 <= euclidean_squared <= manhattan^2`; `euclidean_squared <= 2 * chebyshev^2` |
| `GridPoint.EuclideanSquaredOfAbs` | src/point.rs:170-176 | the squared distance is `abs(dx)^2 + abs(dy)^2` |
| `GridPoint.Neighbours` | src/point.rs:222-231 | the sequence an iterator over `arr` from `origin` produces has one point per table entry, and entry `k` is `origin + arr[k]` |
| `GridPoint.Adj4Exact` | src/point.rs:202-210 | a point is produced by `adj_4` if and only if it is at Manhattan distance 1 |
| `GridPoint.Adj8Exact` | src/point.rs:192-200 | a point is produced by `adj_8` if and only if it is at Chebyshev distance 1 |
| `GridPoint.AdjNeighboursDistinct` | src/point.rs:192-210 | the eight `adj_8` points are pairwise distinct, and the `adj_4` points are the first four of them |
| `GridPoint.AdjIterator.constructor` | src/point.rs:195-199 | a new iterator has cursor 0 and has the whole neighbour sequence still to produce |
| `GridPoint.AdjIterator.Next` | src/point.rs:222-231 | while the cursor is inside the table, returns `origin + arr[i]` and advances the cursor by one; afterwards it returns `None` and changes nothing; the cursor never passes the table's end |
| `GridPoint.Adj4` | src/point.rs:202-210 | returns a fresh iterator at cursor 0 over `DIR_4` from the point |
| `GridPoint.Adj8` | src/point.rs:192-200 | returns a fresh iterator at cursor 0 over `DIR_8` from the point |
| `GridPoint.Collect` | src/point.rs:339 | draining an iterator returns exactly what it had still to produce, in order, and leaves it exhausted |
| `GridPoint.AdjScenario` | src/point.rs:337-354 | around `(10,10)`, `adj_4` yields `(10,11), (10,9), (9,10), (11,10)` in that order; `adj_8` yields those followed by `(9,11), (11,11), (9,9), (11,9)`; two further calls on the exhausted iterator both return `None`; a second `adj_4` iterator from the same origin yields the same sequence |
| `GridPoint.AdjAroundTen` | src/point.rs:337-354 | the `adj_4` sequence of `(10,10)` is `(10,11), (10,9), (9,10), (11,10)`, and the `adj_8` sequence is that followed by `(9,11), (11,11), (9,9), (11,9)` |
| `GridPoint.TaxiExample` | src/point.rs:328-335 | the Manhattan distance from `(10,10)` to `(20,20)` is 20 |

## Left out

- GridPoint.AsIndex: requires non-negative coordinates. In the source, `x as usize` and `y as usize` sign-extend a negative coordinate to `2^64` plus that coordinate. A release build then returns `y * width + x` modulo 2^64. A debug build returns the same value when neither the `usize` product nor the sum goes past 2^64 - 1, and panics otherwise. For example, `(-1, 2)` with width 10 makes the sum overflow: a debug build panics and a release build gives 19. `(-1, 0)` with width 10 overflows nowhere, since `y * width` is 0, and gives the huge index 2^64 - 1 in both builds. The model reproduces none of these outcomes, and it does not model overflow of `y * width + x` for large non-negative inputs either.
- GridPoint.Len: requires `x * y >= 0`. A negative product wraps to a huge `usize` in the source; the model does not reproduce it. The product itself is also computed in `i32` before the cast and can overflow (see the 32-bit list below): at `(65536, 65536)` the source panics or returns 0, while the model returns 4294967296, so the model's "zero exactly when a coordinate is zero" does not hold of the source there.
- Size2d.Len: requires non-negative components, which are the `usize` casts of `width`/`height`. The wrap of a negative component is not modelled.
- 32-bit arithmetic: coordinates are unbounded integers, so `i32` overflow is not modelled. The source would panic in debug builds and wrap in release builds. Overflow can happen in the following places, some of them well inside the 2^24 range of the `f32` round trip:
  - axis moves and offsets;
  - the coordinate differences of the three distances;
  - `abs` of `i32::MIN`;
  - the product `x * y` in `len`, which is taken in `i32` before the `usize` cast (src/point.rs:100-102). For example, `(65536, 65536)` gives 4294967296 in the model, while the source panics in a debug build and returns 0 in a release build;
  - the sum `d.x + d.y` in `manhattan` (src/point.rs:158-159);
  - the squares in `euclidean_squared`, which `length_squared` computes in `i32` (src/point.rs:173-176). For example, `(0,0)` and `(46341,0)` give 2147488281 in the model, while the source panics or wraps.
- The single-precision round trip in `as_ivec2` (src/point.rs:15-23) is taken as the identity. That is exact for magnitudes up to 2^24.
- Floating-point operations are not modelled: `x_f32`, `y_f32`, `as_vec2`, `as_f32_array`, `as_tuple`, `euclidean` (a square root) and `lerp` (src/point.rs:12-23, 33-44, 181-190).
- The array and tuple conversions `as_array`, `as_iarray`, `as_i32_tuple`, `as_usize_array`, `as_usize_tuple` and `as_uvec2` are left out. They are casts between representations and carry no grid logic.
- `pivot`, `get_pivot` and `PivotedPoint` belong to the pivot module, which is not part of this model.
- The per-type trait implementations generated by macros (src/point.rs:57-92, 234-320) are left out. A single integer-pair datatype stands for all of them.
- `GridPoint.Collect` stands for the standard library's `Iterator::collect` as the tests use it. It is not a function of the crate itself.
