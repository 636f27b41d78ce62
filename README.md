# Geometry solids: containment and bounding boxes

A Dafny model of the `Inheritance.Geometry.Virtual` solids. The abstract
`Body` has a `Position` and two virtual operations, `ContainsPoint(point)`
and `GetBoundingBox()`, and four overrides:

- `Ball`: a closed squared-distance test.
- `RectangularCuboid`: a closed interval test on each axis. It is its own bounding box.
- `Cylinder`: a radial test plus a Z-interval test, with the axis along Z.
- `CompoundBody`: the union of its parts, which may be nested.

The class hierarchy becomes one closed datatype, `Bodies.Body`, with one
constructor per class. `Body.ContainsPoint` and `Body.BoundingBox` dispatch by
`match`. They are the definitions, and the lemmas below state what they
mean. The compound's bounding box is a `foreach` loop over six running extrema
in the source. Here it is the method `BoundingBoxLoop.GetBoundingBox`. The
method's loop invariant ties the extrema to a functional fold over the parts
processed so far (`Bodies.LowerCorner`, `Bodies.UpperCorner`). Its
postcondition equates its result with `Body.BoundingBox`.

Modules and files:

- `vectors.dfy`, module `Vectors`: the minimal `Vector3` the solids use, with `Math.Min` / `Math.Max`.
- `bodies.dfy`, module `Bodies`: the datatype, the `CompoundBody` constructor as `NewCompound`, box corners and the fold.
- `bounding_box_loop.dfy`, module `BoundingBoxLoop`: the imperative `GetBoundingBox`.
- `properties.dfy`, module `BodyProperties`: the properties.

A compound's `Position` is a field, as in the base class. `NewCompound` sets
it from the first part. `Body.Valid()` records, at every level of nesting,
what that constructor establishes: the part list is non-empty and the
position is the first part's. The model holds the parts as a value, so this
stays true after construction. The source keeps the caller's list by
reference, so there it holds only while the caller leaves that list alone
(see the aliasing line under "## Left out"). An empty part list makes the
source throw when it reads `parts[0]`. `NewCompound` returns `Err(EmptyParts)` in that case.

Negative radii and extents are accepted, as in the source. Several results
depend on excluding them, and concrete lemmas show why:

- Soundness needs radii that are not negative: `BoundingBoxSound`, and the leaf lemmas `BallBoundingBoxSound` and `CylinderBoundingBoxSound`, carry that condition. See `NegativeRadiusBallEscapesItsBox`.
- Non-negative box extents need extents that are not negative: `BoundingBoxSizesNonNegative` carries that condition, and so do the closed-face lemmas `CuboidFacesInside` and `CylinderFacesInside`. See `InvertedCuboidCompoundHasNegativeSize`.

The code does not guarantee non-negative extents for the bounding box of
degenerate parts, and the model follows the code.

## Model

| member | source | states |
|---|---|---|
| `Vectors.Min` | Virtual/VirtualTask.cs:115-117 | `Math.Min` on reals: the result is at most both arguments and equals one of them |
| `Vectors.Max` | Virtual/VirtualTask.cs:118-120 | `Math.Max` on reals: the result is at least both arguments and equals one of them |
| `Bodies.NewCompound` | Virtual/VirtualTask.cs:91-96 | construction fails exactly when the part list is empty; otherwise the compound keeps the parts and takes the first part's `Position`, and it is valid when its parts are |
| `BoundingBoxLoop.GetBoundingBox` | Virtual/VirtualTask.cs:102-124 | the min/max loop over the parts' box corners, with recursive calls for nested parts, returns exactly the fold-defined bounding box |
| `BodyProperties.BallDependsOnlyOnDistance` | Virtual/VirtualTask.cs:27-31 | ball containment depends only on the squared distance to `Position` (rotation symmetry) |
| `BodyProperties.BallScenario` | Virtual/VirtualTask.cs:27-31 | radius 5 at the origin: (3,4,0), at distance exactly 5, is inside (closed boundary); (3,4,0.1) is not |
| `BodyProperties.BallBoundingBoxCorners` | Virtual/VirtualTask.cs:33-36 | the ball's box is centred at `Position` and spans `Position ± Radius` on every axis |
| `BodyProperties.BallBoundingBoxSound` | Virtual/VirtualTask.cs:27-36 | for `Radius >= 0`, every point the ball contains lies in its box |
| `BodyProperties.NegativeRadiusBallEscapesItsBox` | Virtual/VirtualTask.cs:23-36 | a radius of -1 is accepted; that ball contains its centre, and its inverted box does not |
| `BodyProperties.CuboidContainsCorners` | Virtual/VirtualTask.cs:52-56 | the cuboid contains `p` iff min corner <= `p` <= max corner on all axes, the corners being `Position ∓ Size/2` as the compound's loop computes them |
| `BodyProperties.CuboidFacesInside` | Virtual/VirtualTask.cs:52-56 | the interval is closed: with extents that are not negative, both extreme corners are inside |
| `BodyProperties.CuboidIsOwnBoundingBox` | Virtual/VirtualTask.cs:59-61 | a cuboid's bounding box is the cuboid itself (value equality) |
| `BodyProperties.CylinderFacesInside` | Virtual/VirtualTask.cs:74-81 | a point on the radial disc at `z = minZ` or `z = maxZ` is inside (closed axial interval) |
| `BodyProperties.CylinderBoundingBoxCorners` | Virtual/VirtualTask.cs:84-87 | the cylinder's box is centred at `Position`, spans `± Radius` across and `Position.Z ± SizeZ/2`, its axial interval, along Z |
| `BodyProperties.CylinderBoundingBoxSound` | Virtual/VirtualTask.cs:74-87 | for `Radius >= 0`, every point the cylinder contains lies in its box |
| `BodyProperties.LowerCornerIsMinimum` | Virtual/VirtualTask.cs:110-117 | the running minimum is, on each axis, at most every box's min corner and equal to one of them |
| `BodyProperties.UpperCornerIsMaximum` | Virtual/VirtualTask.cs:110-121 | the running maximum is, on each axis, at least every box's max corner and equal to one of them |
| `BodyProperties.SameElementsSameLowerCorner` | Virtual/VirtualTask.cs:110-117 | the running minimum depends only on which boxes occur, not on their order or how often |
| `BodyProperties.SameElementsSameUpperCorner` | Virtual/VirtualTask.cs:110-121 | the running maximum depends only on which boxes occur, not on their order or how often |
| `BodyProperties.LowerCornerAppend` | Virtual/VirtualTask.cs:110-117 | folding a concatenation equals combining the folds of the two halves (associativity) |
| `BodyProperties.UpperCornerAppend` | Virtual/VirtualTask.cs:110-121 | folding a concatenation equals combining the folds of the two halves (associativity) |
| `BodyProperties.UnionBoxCorners` | Virtual/VirtualTask.cs:123 | the rebuilt box (midpoint centre, difference sizes) has exactly the running extrema as its corners |
| `BodyProperties.CompoundContainsAppend` | Virtual/VirtualTask.cs:98-100 | a compound of `parts1 + parts2` contains `p` iff the compound of either half does |
| `BodyProperties.NestedCompoundContainsPoint` | Virtual/VirtualTask.cs:98-100 | grouping the parts into two nested compounds does not change containment |
| `BodyProperties.CompoundBoundingBoxExtremes` | Virtual/VirtualTask.cs:102-124 | on each axis the compound box's min corner is the least of the parts' box min corners, and its max corner the greatest of their max corners |
| `BodyProperties.CompoundBoundingBoxEnclosesParts` | Virtual/VirtualTask.cs:102-124 | every part's box lies within the compound's box, so no part's extent exceeds the compound's |
| `BodyProperties.BoundingBoxSizesNonNegative` | Virtual/VirtualTask.cs:102-124 | with no negative radius or extent anywhere, every bounding box, nested or not, has extents that are not negative |
| `BodyProperties.InvertedCuboidCompoundHasNegativeSize` | Virtual/VirtualTask.cs:102-124 | a single cuboid part with extent -2 on X gives its compound a box of negative X extent |
| `BodyProperties.BoundingBoxSound` | Virtual/VirtualTask.cs:14-16 | for every solid with no negative radius, at any depth of nesting, a point it contains lies in its bounding box |
| `BodyProperties.BoundingBoxOrderIndependent` | Virtual/VirtualTask.cs:110-123 | two compounds whose part lists have the same elements, in any order and with any repetitions, have the same box |
| `BodyProperties.NestedCompoundBoundingBox` | Virtual/VirtualTask.cs:102-124 | grouping the parts into two nested compounds does not change the box |
| `BodyProperties.CompoundScenario` | Virtual/VirtualTask.cs:102-124 | cuboids 2×2×2 at the origin and at (10,0,0) give a box centred at (5,0,0) with extents (12,2,2) |

## Left out

- Floating point: `double` is modelled by exact `real`. Rounding is not modelled. In particular the cylinder's `maxZ = minZ + SizeZ` and the box's `Position.Z + SizeZ/2` are equal here, but might not be in `double`.
- The `double.MaxValue` / `double.MinValue` seeds of the compound's extrema: `GetBoundingBox` seeds them from the first part's box. As long as the part list keeps the parts it had at construction, there is a first part, and it overwrites the seeds in the source.
- Aliasing of the part list: the `CompoundBody` constructor keeps the caller's `IReadOnlyList<Body>` by reference (Virtual/VirtualTask.cs:94-95), while the model takes a copied `seq`, so later changes by the caller are not modelled. A caller that empties its list would make `ContainsPoint` false and let the seeds leak into the box (centre 0, sizes `MinValue - MaxValue`). A caller that replaces the first element would leave `Position` different from the new first part's. A null list or null part, which throws `NullReferenceException`, is not modelled either.
- `Vector3` is not part of this model. `Vectors.Vector3` gives it only the operations the solids use.
- Object identity: the cuboid's `return this` is modelled as the same value.
- Evaluation order and short-circuiting of LINQ `Any` in the compound's `ContainsPoint`: only its boolean result is modelled, as an `exists` over the parts.
- Stack depth for deeply nested compounds, and the absence of caching.
- BodyProperties.BoundingBoxSound: holds only for non-negative radii, which the source does not enforce. `NegativeRadiusBallEscapesItsBox` shows a ball that breaks it.
- BodyProperties.BoundingBoxSizesNonNegative: holds only for non-negative radii and extents. `InvertedCuboidCompoundHasNegativeSize` shows a compound that breaks it.
