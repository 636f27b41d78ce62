/**
 * What the solids promise: the closed-form containment tests, the boxes of
 * the three simple solids, and the laws of the compound: containment is the
 * union of the parts, its box is the tightest box around the parts' boxes,
 * it does not depend on the order of the parts, and nesting compounds
 * changes nothing. The central one is soundness: a point a solid contains
 * lies in that solid's bounding box.
 */
module BodyProperties {
  import opened Vectors
  import opened Bodies

  /** `inner` lies within `outer` on every axis. */
  predicate Within(inner: Box, outer: Box) {
    MinCorner(outer).LessOrEqual(MinCorner(inner)) && MaxCorner(inner).LessOrEqual(MaxCorner(outer))
  }

  // ---------------------------------------------------------------- Ball

  /** Containment depends only on the squared distance to the centre: it is symmetric under rotation. */
  lemma BallDependsOnlyOnDistance(position: Vector3, radius: real, p: Vector3, q: Vector3)
    requires p.Minus(position).GetLength2() == q.Minus(position).GetLength2()
    ensures Ball(position, radius).ContainsPoint(p) == Ball(position, radius).ContainsPoint(q)
  {
  }

  /** The ball's box spans `Position ± Radius` on every axis. */
  lemma BallBoundingBoxCorners(position: Vector3, radius: real)
    ensures Ball(position, radius).BoundingBox().Position == position
    ensures MinCorner(Ball(position, radius).BoundingBox()) == position.Minus(Vector3(radius, radius, radius))
    ensures MaxCorner(Ball(position, radius).BoundingBox()) == position.Plus(Vector3(radius, radius, radius))
  {
  }

  /** For a radius that is not negative, a point the ball contains lies in its box. */
  lemma BallBoundingBoxSound(position: Vector3, radius: real, p: Vector3)
    requires radius >= 0.0
    requires Ball(position, radius).ContainsPoint(p)
    ensures Ball(position, radius).BoundingBox().ContainsPoint(p)
  {
    var v := p.Minus(position);
    SquaresBelowLength2(v);
    SquareBound(v.X, radius);
    SquareBound(v.Y, radius);
    SquareBound(v.Z, radius);
  }

  /** A negative radius is accepted; such a ball contains its centre, which its (inverted) box does not. */
  lemma NegativeRadiusBallEscapesItsBox()
    ensures Ball(Vector3(0.0, 0.0, 0.0), -1.0).ContainsPoint(Vector3(0.0, 0.0, 0.0))
    ensures !Ball(Vector3(0.0, 0.0, 0.0), -1.0).BoundingBox().ContainsPoint(Vector3(0.0, 0.0, 0.0))
  {
    var origin := Vector3(0.0, 0.0, 0.0);
    var box := RectangularCuboid(origin, -2.0, -2.0, -2.0);
    assert Ball(origin, -1.0).BoundingBox() == box;
    assert !box.ContainsPoint(origin);
  }

  /** Radius 5 at the origin: (3, 4, 0) lies on the sphere and is inside; (3, 4, 0.1) is not. */
  lemma BallScenario()
    ensures Ball(Vector3(0.0, 0.0, 0.0), 5.0).ContainsPoint(Vector3(3.0, 4.0, 0.0))
    ensures !Ball(Vector3(0.0, 0.0, 0.0), 5.0).ContainsPoint(Vector3(3.0, 4.0, 0.1))
  {
    var origin := Vector3(0.0, 0.0, 0.0);
    assert Vector3(3.0, 4.0, 0.0).Minus(origin) == Vector3(3.0, 4.0, 0.0);
    assert Vector3(3.0, 4.0, 0.0).GetLength2() == 25.0;
    assert Vector3(3.0, 4.0, 0.1).Minus(origin) == Vector3(3.0, 4.0, 0.1);
    assert Vector3(3.0, 4.0, 0.1).GetLength2() == 25.01;
  }

  // ---------------------------------------------------------------- RectangularCuboid

  /** The cuboid's test (per-axis bounds) is the box test between its min and max corners. */
  lemma CuboidContainsCorners(box: Box, p: Vector3)
    ensures box.ContainsPoint(p) <==> MinCorner(box).LessOrEqual(p) && p.LessOrEqual(MaxCorner(box))
  {
  }

  /** The interval is closed: with extents that are not negative, both extreme corners are inside. */
  lemma CuboidFacesInside(box: Box)
    requires box.SizeX >= 0.0 && box.SizeY >= 0.0 && box.SizeZ >= 0.0
    ensures box.ContainsPoint(MinCorner(box)) && box.ContainsPoint(MaxCorner(box))
  {
  }

  /** A cuboid is its own bounding box (compared as a value). */
  lemma CuboidIsOwnBoundingBox(box: Box)
    ensures box.BoundingBox() == box
  {
  }

  // ---------------------------------------------------------------- Cylinder

  /** The axial interval is closed: on the radial disc, the bottom and top faces are inside. */
  lemma CylinderFacesInside(position: Vector3, sizeZ: real, radius: real, p: Vector3)
    requires (p.X - position.X) * (p.X - position.X) + (p.Y - position.Y) * (p.Y - position.Y) <= radius * radius
    requires p.Z == position.Z - sizeZ / 2.0 || p.Z == position.Z + sizeZ / 2.0
    requires sizeZ >= 0.0
    ensures Cylinder(position, sizeZ, radius).ContainsPoint(p)
  {
  }

  /** The cylinder's box spans `Position ± Radius` across and `Position.Z ± SizeZ/2`, its axial interval, along Z. */
  lemma CylinderBoundingBoxCorners(position: Vector3, sizeZ: real, radius: real)
    ensures Cylinder(position, sizeZ, radius).BoundingBox().Position == position
    ensures MinCorner(Cylinder(position, sizeZ, radius).BoundingBox())
         == Vector3(position.X - radius, position.Y - radius, position.Z - sizeZ / 2.0)
    ensures MaxCorner(Cylinder(position, sizeZ, radius).BoundingBox())
         == Vector3(position.X + radius, position.Y + radius, position.Z + sizeZ / 2.0)
  {
  }

  /** For a radius that is not negative, a point the cylinder contains lies in its box. */
  lemma CylinderBoundingBoxSound(position: Vector3, sizeZ: real, radius: real, p: Vector3)
    requires radius >= 0.0
    requires Cylinder(position, sizeZ, radius).ContainsPoint(p)
    ensures Cylinder(position, sizeZ, radius).BoundingBox().ContainsPoint(p)
  {
    var dx, dy := p.X - position.X, p.Y - position.Y;
    assert dx * dx >= 0.0 && dy * dy >= 0.0;
    SquareBound(dx, radius);
    SquareBound(dy, radius);
  }

  // ---------------------------------------------------------------- the running extrema

  /** The running minimum is below every box's min corner and equals one of them on each axis. */
  lemma {:induction false} LowerCornerIsMinimum(boxes: seq<Box>, a: Axis)
    requires |boxes| > 0
    ensures forall i :: 0 <= i < |boxes| ==> Coord(LowerCorner(boxes), a) <= Coord(MinCorner(boxes[i]), a)
    ensures exists i :: 0 <= i < |boxes| && Coord(LowerCorner(boxes), a) == Coord(MinCorner(boxes[i]), a)
  {
    if |boxes| > 1 {
      var n := |boxes| - 1;
      var init := boxes[..n];
      LowerCornerIsMinimum(init, a);
      var j :| 0 <= j < n && Coord(LowerCorner(init), a) == Coord(MinCorner(init[j]), a);
      assert init[j] == boxes[j];
      if Coord(LowerCorner(boxes), a) == Coord(MinCorner(boxes[n]), a) {
        assert 0 <= n < |boxes|;
      } else {
        assert Coord(LowerCorner(boxes), a) == Coord(MinCorner(boxes[j]), a);
      }
      forall i | 0 <= i < |boxes|
        ensures Coord(LowerCorner(boxes), a) <= Coord(MinCorner(boxes[i]), a)
      {
        if i < n {
          assert init[i] == boxes[i];
        }
      }
    } else {
      assert Coord(LowerCorner(boxes), a) == Coord(MinCorner(boxes[0]), a);
    }
  }

  /** The running maximum is above every box's max corner and equals one of them on each axis. */
  lemma {:induction false} UpperCornerIsMaximum(boxes: seq<Box>, a: Axis)
    requires |boxes| > 0
    ensures forall i :: 0 <= i < |boxes| ==> Coord(MaxCorner(boxes[i]), a) <= Coord(UpperCorner(boxes), a)
    ensures exists i :: 0 <= i < |boxes| && Coord(UpperCorner(boxes), a) == Coord(MaxCorner(boxes[i]), a)
  {
    if |boxes| > 1 {
      var n := |boxes| - 1;
      var init := boxes[..n];
      UpperCornerIsMaximum(init, a);
      var j :| 0 <= j < n && Coord(UpperCorner(init), a) == Coord(MaxCorner(init[j]), a);
      assert init[j] == boxes[j];
      if Coord(UpperCorner(boxes), a) == Coord(MaxCorner(boxes[n]), a) {
        assert 0 <= n < |boxes|;
      } else {
        assert Coord(UpperCorner(boxes), a) == Coord(MaxCorner(boxes[j]), a);
      }
      forall i | 0 <= i < |boxes|
        ensures Coord(MaxCorner(boxes[i]), a) <= Coord(UpperCorner(boxes), a)
      {
        if i < n {
          assert init[i] == boxes[i];
        }
      }
    } else {
      assert Coord(UpperCorner(boxes), a) == Coord(MaxCorner(boxes[0]), a);
    }
  }

  /** For boxes with the same elements, in whatever order and multiplicity, the running minimum is the same. */
  lemma SameElementsSameLowerCorner(s1: seq<Box>, s2: seq<Box>, a: Axis)
    requires |s1| > 0 && |s2| > 0
    requires forall b :: b in s1 <==> b in s2
    ensures Coord(LowerCorner(s1), a) == Coord(LowerCorner(s2), a)
  {
    LowerCornerIsMinimum(s1, a);
    LowerCornerIsMinimum(s2, a);
    var i1 :| 0 <= i1 < |s1| && Coord(LowerCorner(s1), a) == Coord(MinCorner(s1[i1]), a);
    assert s1[i1] in s2;
    var j1 :| 0 <= j1 < |s2| && s2[j1] == s1[i1];
    var i2 :| 0 <= i2 < |s2| && Coord(LowerCorner(s2), a) == Coord(MinCorner(s2[i2]), a);
    assert s2[i2] in s1;
    var j2 :| 0 <= j2 < |s1| && s1[j2] == s2[i2];
  }

  /** For boxes with the same elements, in whatever order and multiplicity, the running maximum is the same. */
  lemma SameElementsSameUpperCorner(s1: seq<Box>, s2: seq<Box>, a: Axis)
    requires |s1| > 0 && |s2| > 0
    requires forall b :: b in s1 <==> b in s2
    ensures Coord(UpperCorner(s1), a) == Coord(UpperCorner(s2), a)
  {
    UpperCornerIsMaximum(s1, a);
    UpperCornerIsMaximum(s2, a);
    var i1 :| 0 <= i1 < |s1| && Coord(UpperCorner(s1), a) == Coord(MaxCorner(s1[i1]), a);
    assert s1[i1] in s2;
    var j1 :| 0 <= j1 < |s2| && s2[j1] == s1[i1];
    var i2 :| 0 <= i2 < |s2| && Coord(UpperCorner(s2), a) == Coord(MaxCorner(s2[i2]), a);
    assert s2[i2] in s1;
    var j2 :| 0 <= j2 < |s1| && s1[j2] == s2[i2];
  }

  /** Folding a concatenation is folding each half and combining: the running minimum is associative. */
  lemma {:induction false} LowerCornerAppend(s1: seq<Box>, s2: seq<Box>)
    requires |s1| > 0 && |s2| > 0
    ensures LowerCorner(s1 + s2) == MinV(LowerCorner(s1), LowerCorner(s2))
    decreases |s2|
  {
    var n := |s1 + s2| - 1;
    if |s2| == 1 {
      assert (s1 + s2)[..n] == s1;
    } else {
      var init := s2[..|s2| - 1];
      assert (s1 + s2)[..n] == s1 + init;
      LowerCornerAppend(s1, init);
    }
  }

  /** Folding a concatenation is folding each half and combining: the running maximum is associative. */
  lemma {:induction false} UpperCornerAppend(s1: seq<Box>, s2: seq<Box>)
    requires |s1| > 0 && |s2| > 0
    ensures UpperCorner(s1 + s2) == MaxV(UpperCorner(s1), UpperCorner(s2))
    decreases |s2|
  {
    var n := |s1 + s2| - 1;
    if |s2| == 1 {
      assert (s1 + s2)[..n] == s1;
    } else {
      var init := s2[..|s2| - 1];
      assert (s1 + s2)[..n] == s1 + init;
      UpperCornerAppend(s1, init);
    }
  }

  /** The box rebuilt from a min and a max corner has exactly those corners. */
  lemma UnionBoxCorners(boxes: seq<Box>)
    requires |boxes| > 0
    ensures MinCorner(UnionBox(boxes)) == LowerCorner(boxes)
    ensures MaxCorner(UnionBox(boxes)) == UpperCorner(boxes)
  {
  }

  // ---------------------------------------------------------------- CompoundBody

  /** A compound contains a point of a concatenated part list exactly when one of the two halves does. */
  lemma CompoundContainsAppend(position: Vector3, parts1: seq<Body>, parts2: seq<Body>, p: Vector3)
    ensures CompoundBody(position, parts1 + parts2).ContainsPoint(p)
        <==> CompoundBody(position, parts1).ContainsPoint(p) || CompoundBody(position, parts2).ContainsPoint(p)
  {
    var all := parts1 + parts2;
    if CompoundBody(position, all).ContainsPoint(p) {
      var i :| 0 <= i < |all| && all[i].ContainsPoint(p);
      if i < |parts1| {
        assert parts1[i] == all[i];
      } else {
        assert parts2[i - |parts1|] == all[i];
      }
    }
    if CompoundBody(position, parts1).ContainsPoint(p) {
      var i :| 0 <= i < |parts1| && parts1[i].ContainsPoint(p);
      assert all[i] == parts1[i];
    }
    if CompoundBody(position, parts2).ContainsPoint(p) {
      var i :| 0 <= i < |parts2| && parts2[i].ContainsPoint(p);
      assert all[|parts1| + i] == parts2[i];
    }
  }

  /** Nesting: splitting a compound's parts into two sub-compounds does not change which points it contains. */
  lemma NestedCompoundContainsPoint(parts1: seq<Body>, parts2: seq<Body>, position: Vector3, p: Vector3)
    ensures CompoundBody(position, parts1 + parts2).ContainsPoint(p)
        <==> CompoundBody(position, [CompoundBody(position, parts1), CompoundBody(position, parts2)]).ContainsPoint(p)
  {
    CompoundContainsAppend(position, parts1, parts2, p);
    var nested := [CompoundBody(position, parts1), CompoundBody(position, parts2)];
    assert nested[0] == CompoundBody(position, parts1);
    assert nested[1] == CompoundBody(position, parts2);
  }

  /**
   * The compound's box is the tightest box around its parts' boxes: on each
   * axis its min corner is the least of the parts' min corners and its max
   * corner the greatest of their max corners.
   */
  lemma CompoundBoundingBoxExtremes(body: Body, a: Axis)
    requires body.CompoundBody? && body.Valid()
    ensures forall i :: 0 <= i < |body.Parts| ==>
      Coord(MinCorner(body.BoundingBox()), a) <= Coord(MinCorner(body.Parts[i].BoundingBox()), a)
    ensures forall i :: 0 <= i < |body.Parts| ==>
      Coord(MaxCorner(body.Parts[i].BoundingBox()), a) <= Coord(MaxCorner(body.BoundingBox()), a)
    ensures exists i :: (0 <= i < |body.Parts| &&
      Coord(MinCorner(body.BoundingBox()), a) == Coord(MinCorner(body.Parts[i].BoundingBox()), a))
    ensures exists i :: (0 <= i < |body.Parts| &&
      Coord(MaxCorner(body.BoundingBox()), a) == Coord(MaxCorner(body.Parts[i].BoundingBox()), a))
  {
    var boxes := PartBoxes(body.Parts);
    assert body.BoundingBox() == UnionBox(boxes);
    forall i | 0 <= i < |boxes| ensures boxes[i] == body.Parts[i].BoundingBox() {
    }
    LowerCornerIsMinimum(boxes, a);
    UpperCornerIsMaximum(boxes, a);
    UnionBoxCorners(boxes);
    var i :| 0 <= i < |boxes| && Coord(LowerCorner(boxes), a) == Coord(MinCorner(boxes[i]), a);
    var j :| 0 <= j < |boxes| && Coord(UpperCorner(boxes), a) == Coord(MaxCorner(boxes[j]), a);
  }

  /** Every part's box lies within the compound's box, and so its extents are at most the compound's. */
  lemma CompoundBoundingBoxEnclosesParts(body: Body)
    requires body.CompoundBody? && body.Valid()
    ensures forall i :: 0 <= i < |body.Parts| ==> Within(body.Parts[i].BoundingBox(), body.BoundingBox())
    ensures forall i :: 0 <= i < |body.Parts| ==>
      body.Parts[i].BoundingBox().SizeX <= body.BoundingBox().SizeX &&
      body.Parts[i].BoundingBox().SizeY <= body.BoundingBox().SizeY &&
      body.Parts[i].BoundingBox().SizeZ <= body.BoundingBox().SizeZ
  {
    CompoundBoundingBoxExtremes(body, AxisX);
    CompoundBoundingBoxExtremes(body, AxisY);
    CompoundBoundingBoxExtremes(body, AxisZ);
  }

  /** With no negative radius or extent anywhere, every bounding box has extents that are not negative. */
  lemma {:induction false} BoundingBoxSizesNonNegative(body: Body)
    requires body.Valid() && body.ExtentsNonNegative()
    ensures body.BoundingBox().SizeX >= 0.0 && body.BoundingBox().SizeY >= 0.0 && body.BoundingBox().SizeZ >= 0.0
    decreases body
  {
    if body.CompoundBody? {
      BoundingBoxSizesNonNegative(body.Parts[0]);
      CompoundBoundingBoxEnclosesParts(body);
    }
  }

  /** A single cuboid part with a negative extent gives its compound a box with a negative extent. */
  lemma InvertedCuboidCompoundHasNegativeSize()
    ensures CompoundBody(Vector3(0.0, 0.0, 0.0), [RectangularCuboid(Vector3(0.0, 0.0, 0.0), -2.0, 2.0, 2.0)]).Valid()
    ensures CompoundBody(Vector3(0.0, 0.0, 0.0), [RectangularCuboid(Vector3(0.0, 0.0, 0.0), -2.0, 2.0, 2.0)]).BoundingBox().SizeX < 0.0
  {
    var origin := Vector3(0.0, 0.0, 0.0);
    var part := RectangularCuboid(origin, -2.0, 2.0, 2.0);
    var body := CompoundBody(origin, [part]);
    assert PartBoxes([part]) == [part];
    assert MinCorner(part).X == 1.0 && MaxCorner(part).X == -1.0;
    assert body.BoundingBox() == Span(MinCorner(part), MaxCorner(part));
  }

  /**
   * Soundness: with no negative radius anywhere, every point a solid contains
   * lies in its bounding box, through any depth of nesting.
   */
  lemma {:induction false} BoundingBoxSound(body: Body, p: Vector3)
    requires body.Valid() && body.RadiiNonNegative()
    requires body.ContainsPoint(p)
    ensures body.BoundingBox().ContainsPoint(p)
    decreases body
  {
    match body
    case Ball(position, radius) =>
      BallBoundingBoxSound(position, radius, p);
    case RectangularCuboid(_, _, _, _) =>
    case Cylinder(position, sizeZ, radius) =>
      CylinderBoundingBoxSound(position, sizeZ, radius, p);
    case CompoundBody(_, parts) =>
      var i :| 0 <= i < |parts| && parts[i].ContainsPoint(p);
      BoundingBoxSound(parts[i], p);
      CuboidContainsCorners(parts[i].BoundingBox(), p);
      CompoundBoundingBoxEnclosesParts(body);
      CuboidContainsCorners(body.BoundingBox(), p);
  }

  /** The compound's box does not depend on the order of its parts (nor on repeated parts). */
  lemma BoundingBoxOrderIndependent(parts1: seq<Body>, parts2: seq<Body>)
    requires |parts1| > 0 && |parts2| > 0
    requires forall i :: 0 <= i < |parts1| ==> parts1[i].Valid()
    requires forall i :: 0 <= i < |parts2| ==> parts2[i].Valid()
    requires forall b :: b in parts1 <==> b in parts2
    ensures CompoundBody(parts1[0].Position, parts1).BoundingBox() == CompoundBody(parts2[0].Position, parts2).BoundingBox()
  {
    var boxes1, boxes2 := PartBoxes(parts1), PartBoxes(parts2);
    forall b | b in boxes1 ensures b in boxes2 {
      var i :| 0 <= i < |boxes1| && boxes1[i] == b;
      assert parts1[i] in parts2;
      var j :| 0 <= j < |parts2| && parts2[j] == parts1[i];
      assert boxes2[j] == b;
    }
    forall b | b in boxes2 ensures b in boxes1 {
      var i :| 0 <= i < |boxes2| && boxes2[i] == b;
      assert parts2[i] in parts1;
      var j :| 0 <= j < |parts1| && parts1[j] == parts2[i];
      assert boxes1[j] == b;
    }
    SameElementsSameLowerCorner(boxes1, boxes2, AxisX);
    SameElementsSameLowerCorner(boxes1, boxes2, AxisY);
    SameElementsSameLowerCorner(boxes1, boxes2, AxisZ);
    SameElementsSameUpperCorner(boxes1, boxes2, AxisX);
    SameElementsSameUpperCorner(boxes1, boxes2, AxisY);
    SameElementsSameUpperCorner(boxes1, boxes2, AxisZ);
  }

  /** Nesting: splitting a compound's parts into two sub-compounds does not change its box. */
  lemma NestedCompoundBoundingBox(parts1: seq<Body>, parts2: seq<Body>)
    requires |parts1| > 0 && |parts2| > 0
    requires forall i :: 0 <= i < |parts1| ==> parts1[i].Valid()
    requires forall i :: 0 <= i < |parts2| ==> parts2[i].Valid()
    ensures CompoundBody(parts1[0].Position, parts1 + parts2).Valid()
    ensures CompoundBody(parts1[0].Position, [CompoundBody(parts1[0].Position, parts1), CompoundBody(parts2[0].Position, parts2)]).Valid()
    ensures CompoundBody(parts1[0].Position, parts1 + parts2).BoundingBox()
         == CompoundBody(parts1[0].Position, [CompoundBody(parts1[0].Position, parts1), CompoundBody(parts2[0].Position, parts2)]).BoundingBox()
  {
    var all := parts1 + parts2;
    var c1, c2 := CompoundBody(parts1[0].Position, parts1), CompoundBody(parts2[0].Position, parts2);
    assert all[0] == parts1[0];
    forall i | 0 <= i < |all| ensures all[i].Valid() {
      if i < |parts1| { assert all[i] == parts1[i]; } else { assert all[i] == parts2[i - |parts1|]; }
    }
    var boxes1, boxes2 := PartBoxes(parts1), PartBoxes(parts2);
    assert PartBoxes(all) == boxes1 + boxes2;
    LowerCornerAppend(boxes1, boxes2);
    UpperCornerAppend(boxes1, boxes2);
    UnionBoxCorners(boxes1);
    UnionBoxCorners(boxes2);
    var nested := PartBoxes([c1, c2]);
    assert nested[0] == c1.BoundingBox() == UnionBox(boxes1);
    assert nested[1] == c2.BoundingBox() == UnionBox(boxes2);
    assert nested == [UnionBox(boxes1), UnionBox(boxes2)];
    assert nested[..1] == [UnionBox(boxes1)];
    assert LowerCorner(nested) == MinV(LowerCorner(boxes1), LowerCorner(boxes2)) == LowerCorner(PartBoxes(all));
    assert UpperCorner(nested) == MaxV(UpperCorner(boxes1), UpperCorner(boxes2)) == UpperCorner(PartBoxes(all));
  }

  /** Two unit cuboids ten apart on X: the compound's box is centred at (5, 0, 0) with extents (12, 2, 2). */
  lemma CompoundScenario()
    ensures CompoundBody(Vector3(0.0, 0.0, 0.0), [RectangularCuboid(Vector3(0.0, 0.0, 0.0), 2.0, 2.0, 2.0),
                                                   RectangularCuboid(Vector3(10.0, 0.0, 0.0), 2.0, 2.0, 2.0)]).Valid()
    ensures CompoundBody(Vector3(0.0, 0.0, 0.0), [RectangularCuboid(Vector3(0.0, 0.0, 0.0), 2.0, 2.0, 2.0),
                                                   RectangularCuboid(Vector3(10.0, 0.0, 0.0), 2.0, 2.0, 2.0)]).BoundingBox()
         == RectangularCuboid(Vector3(5.0, 0.0, 0.0), 12.0, 2.0, 2.0)
  {
    var b1 := RectangularCuboid(Vector3(0.0, 0.0, 0.0), 2.0, 2.0, 2.0);
    var b2 := RectangularCuboid(Vector3(10.0, 0.0, 0.0), 2.0, 2.0, 2.0);
    var boxes := PartBoxes([b1, b2]);
    assert boxes[0] == b1.BoundingBox() == b1;
    assert boxes[1] == b2.BoundingBox() == b2;
    assert boxes == [b1, b2];
    assert boxes[..1] == [b1];
    assert LowerCorner(boxes) == Vector3(-1.0, -1.0, -1.0);
    assert UpperCorner(boxes) == Vector3(11.0, 1.0, 1.0);
  }
}
