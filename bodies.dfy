/**
 * The solids of `Inheritance.Geometry.Virtual`: the abstract `Body` with its
 * four overrides (`Ball`, `RectangularCuboid`, `Cylinder`, `CompoundBody`),
 * as one closed datatype whose member functions dispatch by `match`.
 *
 * `ContainsPoint` and `BoundingBox` are the two virtual operations. The
 * compound's bounding box is given here as a functional fold; the loop the
 * program runs is `BoundingBoxLoop.GetBoundingBox`, proved
 * equal to it.
 */
module Bodies {
  import opened Vectors

  /** Raised by the compound's constructor when it reads `parts[0]` of an empty list. */
  datatype BuildError = EmptyParts

  datatype Result<T> = Ok(value: T) | Err(error: BuildError)

  /**
   * Every solid stores the `Position` its base-class constructor was given;
   * for a compound that is the first part's position.
   */
  datatype Body =
    | Ball(Position: Vector3, Radius: real)
    | RectangularCuboid(Position: Vector3, SizeX: real, SizeY: real, SizeZ: real)
    | Cylinder(Position: Vector3, SizeZ: real, Radius: real)
    | CompoundBody(Position: Vector3, Parts: seq<Body>)
  {
    /**
     * What the compound's constructor establishes, at every level of nesting:
     * the part list is non-empty and the compound's position is its first
     * part's. The parts are a value here, so this keeps holding; the source
     * keeps the caller's list by reference, and a caller that later changes
     * that list can break it, which this model does not capture.
     */
    predicate Valid() {
      match this
      case CompoundBody(position, parts) =>
        |parts| > 0 && position == parts[0].Position &&
        forall i :: 0 <= i < |parts| ==> parts[i].Valid()
      case _ => true
    }

    /** Radii are not negative, at every level of nesting. */
    predicate RadiiNonNegative() {
      match this
      case Ball(_, radius) => radius >= 0.0
      case RectangularCuboid(_, _, _, _) => true
      case Cylinder(_, _, radius) => radius >= 0.0
      case CompoundBody(_, parts) => forall i :: 0 <= i < |parts| ==> parts[i].RadiiNonNegative()
    }

    /** Radii and extents are not negative, at every level of nesting. */
    predicate ExtentsNonNegative() {
      match this
      case Ball(_, radius) => radius >= 0.0
      case RectangularCuboid(_, sizeX, sizeY, sizeZ) => sizeX >= 0.0 && sizeY >= 0.0 && sizeZ >= 0.0
      case Cylinder(_, sizeZ, radius) => sizeZ >= 0.0 && radius >= 0.0
      case CompoundBody(_, parts) => forall i :: 0 <= i < |parts| ==> parts[i].ExtentsNonNegative()
    }

    predicate ContainsPoint(point: Vector3) {
      match this
      case Ball(position, radius) =>
        var vector := point.Minus(position);
        vector.GetLength2() <= radius * radius
      case RectangularCuboid(position, sizeX, sizeY, sizeZ) =>
        var minPoint := Vector3(position.X - sizeX / 2.0, position.Y - sizeY / 2.0, position.Z - sizeZ / 2.0);
        var maxPoint := Vector3(position.X + sizeX / 2.0, position.Y + sizeY / 2.0, position.Z + sizeZ / 2.0);
        point.GreaterOrEqual(minPoint) && point.LessOrEqual(maxPoint)
      case Cylinder(position, sizeZ, radius) =>
        var vectorX := point.X - position.X;
        var vectorY := point.Y - position.Y;
        var length2 := vectorX * vectorX + vectorY * vectorY;
        var minZ := position.Z - sizeZ / 2.0;
        var maxZ := minZ + sizeZ;
        length2 <= radius * radius && point.Z >= minZ && point.Z <= maxZ
      case CompoundBody(_, parts) =>
        exists i :: 0 <= i < |parts| && parts[i].ContainsPoint(point)
    }

    /** The axis-aligned box `GetBoundingBox` returns. */
    function BoundingBox(): Box
      requires Valid()
      decreases this
    {
      match this
      case Ball(position, radius) =>
        var size := 2.0 * radius;
        RectangularCuboid(position, size, size, size)
      case RectangularCuboid(_, _, _, _) => this
      case Cylinder(position, sizeZ, radius) =>
        var size := 2.0 * radius;
        RectangularCuboid(position, size, size, sizeZ)
      case CompoundBody(_, parts) => UnionBox(PartBoxes(parts))
    }
  }

  /** The bodies that are rectangular cuboids: what `GetBoundingBox` returns. */
  type Box = b: Body | b.RectangularCuboid? witness RectangularCuboid(Vector3(0.0, 0.0, 0.0), 0.0, 0.0, 0.0)

  /** The `CompoundBody` constructor: it reads `parts[0]`, which fails on an empty list. */
  function NewCompound(parts: seq<Body>): (r: Result<Body>)
    ensures r.Err? <==> |parts| == 0
    ensures r.Ok? ==> r.value.CompoundBody? && r.value.Parts == parts && r.value.Position == parts[0].Position
    ensures r.Ok? && (forall i :: 0 <= i < |parts| ==> parts[i].Valid()) ==> r.value.Valid()
  {
    if |parts| == 0 then Err(EmptyParts) else Ok(CompoundBody(parts[0].Position, parts))
  }

  /** Half of each extent of a box, as a vector. */
  function HalfSizes(box: Box): Vector3 {
    Vector3(box.SizeX / 2.0, box.SizeY / 2.0, box.SizeZ / 2.0)
  }

  /** The box's corner with the least coordinates. */
  function MinCorner(box: Box): Vector3 {
    box.Position.Minus(HalfSizes(box))
  }

  /** The box's corner with the greatest coordinates. */
  function MaxCorner(box: Box): Vector3 {
    box.Position.Plus(HalfSizes(box))
  }

  /** The bounding boxes of the parts, in order. */
  function PartBoxes(parts: seq<Body>): (boxes: seq<Box>)
    requires forall i :: 0 <= i < |parts| ==> parts[i].Valid()
    decreases parts
    ensures |boxes| == |parts|
  {
    seq(|parts|, i requires 0 <= i < |parts| => parts[i].BoundingBox())
  }

  /** Running per-axis minimum of the boxes' min corners, seeded by the first box. */
  function LowerCorner(boxes: seq<Box>): Vector3
    requires |boxes| > 0
  {
    if |boxes| == 1 then MinCorner(boxes[0])
    else MinV(LowerCorner(boxes[..|boxes| - 1]), MinCorner(boxes[|boxes| - 1]))
  }

  /** Running per-axis maximum of the boxes' max corners, seeded by the first box. */
  function UpperCorner(boxes: seq<Box>): Vector3
    requires |boxes| > 0
  {
    if |boxes| == 1 then MaxCorner(boxes[0])
    else MaxV(UpperCorner(boxes[..|boxes| - 1]), MaxCorner(boxes[|boxes| - 1]))
  }

  /** The box spanned by a min corner and a max corner: centre midway, sizes the differences. */
  function Span(lo: Vector3, hi: Vector3): Box {
    RectangularCuboid(Vector3((hi.X + lo.X) / 2.0, (hi.Y + lo.Y) / 2.0, (hi.Z + lo.Z) / 2.0),
                      hi.X - lo.X, hi.Y - lo.Y, hi.Z - lo.Z)
  }

  /** The box from the running extrema over all the boxes. */
  function UnionBox(boxes: seq<Box>): Box
    requires |boxes| > 0
  {
    Span(LowerCorner(boxes), UpperCorner(boxes))
  }
}
