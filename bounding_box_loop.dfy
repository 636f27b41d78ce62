/**
 * `CompoundBody.GetBoundingBox` as the program runs it: one pass over the
 * parts that keeps six running extrema (`minX` ... `maxZ`) of the parts'
 * box corners, then rebuilds a centre and three sizes from them. The other
 * solids' boxes are single expressions and come from `Body.BoundingBox`.
 */
module BoundingBoxLoop {
  import opened Vectors
  import opened Bodies

  /**
   * The bounding box of any solid; a compound runs the min/max loop, asking
   * each part for its own box by a recursive call. The extrema are seeded
   * from the first part's box, where the source seeds them with
   * `double.MaxValue` / `double.MinValue` that the first part overwrites.
   */
  method GetBoundingBox(body: Body) returns (box: Box)
    requires body.Valid()
    ensures box == body.BoundingBox()
    decreases body
  {
    match body
    case CompoundBody(_, parts) =>
      ghost var boxes := PartBoxes(parts);
      var firstBox := GetBoundingBox(parts[0]);
      var firstMin := firstBox.Position.Minus(HalfSizes(firstBox));
      var firstMax := firstBox.Position.Plus(HalfSizes(firstBox));
      var minX, minY, minZ := firstMin.X, firstMin.Y, firstMin.Z;
      var maxX, maxY, maxZ := firstMax.X, firstMax.Y, firstMax.Z;
      var i := 1;
      while i < |parts|
        invariant 1 <= i <= |parts|
        invariant Vector3(minX, minY, minZ) == LowerCorner(boxes[..i])
        invariant Vector3(maxX, maxY, maxZ) == UpperCorner(boxes[..i])
      {
        var partBox := GetBoundingBox(parts[i]);
        var min := partBox.Position.Minus(HalfSizes(partBox));
        var max := partBox.Position.Plus(HalfSizes(partBox));
        minX := Min(minX, min.X);
        minY := Min(minY, min.Y);
        minZ := Min(minZ, min.Z);
        maxX := Max(maxX, max.X);
        maxY := Max(maxY, max.Y);
        maxZ := Max(maxZ, max.Z);
        assert boxes[..i + 1][..i] == boxes[..i];
        i := i + 1;
      }
      assert boxes[..i] == boxes;
      box := RectangularCuboid(Vector3((maxX + minX) / 2.0, (maxY + minY) / 2.0, (maxZ + minZ) / 2.0),
                               maxX - minX, maxY - minY, maxZ - minZ);
    case _ =>
      box := body.BoundingBox();
  }
}
