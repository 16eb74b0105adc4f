/**
 * Points and lines of the projective plane in homogeneous coordinates.
 *
 * A point (x, y) is the vector (x, y, 1) up to a non-zero scale; a line
 * a*x + b*y + c = 0 is the vector (a, b, c) up to a non-zero scale. A point
 * lies on a line exactly when their dot product is zero, so the line through
 * two points and the point where two lines meet are both the cross product
 * of the two vectors. Coordinates are integers here, so the incidence checks
 * hold as exact equalities with zero.
 */
module Homogeneous {

  datatype Vec3 = Vec3(x: int, y: int, z: int)

  const Zero := Vec3(0, 0, 0)

  function Dot(a: Vec3, b: Vec3): int {
    a.x * b.x + a.y * b.y + a.z * b.z
  }

  function Scale(c: int, a: Vec3): Vec3 {
    Vec3(c * a.x, c * a.y, c * a.z)
  }

  /** The cross product: it is orthogonal to both of its arguments, so as a
      line it passes through both points, and as a point it lies on both lines. */
  function Cross(a: Vec3, b: Vec3): (r: Vec3)
    ensures Dot(a, r) == 0
    ensures Dot(b, r) == 0
  {
    var r := Vec3(a.y * b.z - a.z * b.y, a.z * b.x - a.x * b.z, a.x * b.y - a.y * b.x);
    assert Dot(a, r) == a.x * (a.y * b.z) - a.x * (a.z * b.y) + a.y * (a.z * b.x) - a.y * (a.x * b.z)
                        + a.z * (a.x * b.y) - a.z * (a.y * b.x);
    assert Dot(b, r) == b.x * (a.y * b.z) - b.x * (a.z * b.y) + b.y * (a.z * b.x) - b.y * (a.x * b.z)
                        + b.z * (a.x * b.y) - b.z * (a.y * b.x);
    r
  }

  /** Two homogeneous vectors are proportional: some non-trivial integer
      combination c*a == d*b. Proportional vectors name the same point (or
      the same line), or one of them is the zero vector. */
  ghost predicate Proportional(a: Vec3, b: Vec3) {
    exists c: int, d: int :: (c != 0 || d != 0) && Scale(c, a) == Scale(d, b)
  }

  /** The cross product vanishes exactly when its arguments are proportional:
      the line through two points is defined (non-zero) iff the points are
      distinct, and two lines meet in a defined point iff they differ. */
  lemma CrossZeroIffProportional(a: Vec3, b: Vec3)
    ensures Cross(a, b) == Zero <==> Proportional(a, b)
  {
    if Cross(a, b) == Zero {
      CrossZeroGivesFactors(a, b);
    }
    if Proportional(a, b) {
      var c: int, d: int :| (c != 0 || d != 0) && Scale(c, a) == Scale(d, b);
      ProportionalGivesZeroCross(a, b, c, d);
    }
  }

  lemma CrossZeroGivesFactors(a: Vec3, b: Vec3)
    requires Cross(a, b) == Zero
    ensures Proportional(a, b)
  {
    var r := Cross(a, b);
    assert a.y * b.z == a.z * b.y && a.z * b.x == a.x * b.z && a.x * b.y == a.y * b.x;
    if a == Zero {
      assert Scale(1, a) == Scale(0, b);
    } else if a.x != 0 {
      assert Scale(b.x, a) == Scale(a.x, b);
    } else if a.y != 0 {
      assert Scale(b.y, a) == Scale(a.y, b);
    } else {
      assert Scale(b.z, a) == Scale(a.z, b);
    }
  }

  lemma ProportionalGivesZeroCross(a: Vec3, b: Vec3, c: int, d: int)
    requires c != 0 || d != 0
    requires Scale(c, a) == Scale(d, b)
    ensures Cross(a, b) == Zero
  {
    var r := Cross(a, b);
    // c*a == d*b, so c*r == a' x b with a' == c*a == d*b, which is d*(b x b) == 0;
    // likewise d*r == 0.
    assert c * r.x == (c * a.y) * b.z - (c * a.z) * b.y;
    assert c * r.y == (c * a.z) * b.x - (c * a.x) * b.z;
    assert c * r.z == (c * a.x) * b.y - (c * a.y) * b.x;
    assert d * r.x == a.y * (d * b.z) - a.z * (d * b.y);
    assert d * r.y == a.z * (d * b.x) - a.x * (d * b.z);
    assert d * r.z == a.x * (d * b.y) - a.y * (d * b.x);
    assert c * r.x == 0 && c * r.y == 0 && c * r.z == 0;
    assert d * r.x == 0 && d * r.y == 0 && d * r.z == 0;
  }

  /** Two distinct finite points (x, y, 1) span a line: the cross product is
      not the zero vector. */
  lemma DistinctPointsSpanLine(a: Vec3, b: Vec3)
    requires a.z == 1 && b.z == 1 && a != b
    ensures Cross(a, b) != Zero
  {
  }

  /** One coordinate of the triple-product expansion, on plain integers. */
  lemma TripleCrossCoordinate(l1: int, l2: int, l3: int, a1: int, a2: int, a3: int, b1: int, b2: int, b3: int)
    ensures l2 * (a1 * b2 - a2 * b1) - l3 * (a3 * b1 - a1 * b3)
         == (l1 * b1 + l2 * b2 + l3 * b3) * a1 - (l1 * a1 + l2 * a2 + l3 * a3) * b1
  {
    assert l2 * (a1 * b2 - a2 * b1) == l2 * a1 * b2 - l2 * a2 * b1;
    assert l3 * (a3 * b1 - a1 * b3) == l3 * a3 * b1 - l3 * a1 * b3;
    assert (l1 * b1 + l2 * b2 + l3 * b3) * a1 == l1 * b1 * a1 + l2 * b2 * a1 + l3 * b3 * a1;
    assert (l1 * a1 + l2 * a2 + l3 * a3) * b1 == l1 * a1 * b1 + l2 * a2 * b1 + l3 * a3 * b1;
  }

  /** The expansion of a triple cross product: l x (a x b) == (l.b) a - (l.a) b. */
  lemma TripleCross(l: Vec3, a: Vec3, b: Vec3)
    ensures Cross(l, Cross(a, b))
         == Vec3(Dot(l, b) * a.x - Dot(l, a) * b.x,
                 Dot(l, b) * a.y - Dot(l, a) * b.y,
                 Dot(l, b) * a.z - Dot(l, a) * b.z)
  {
    TripleCrossCoordinate(l.x, l.y, l.z, a.x, a.y, a.z, b.x, b.y, b.z);
    TripleCrossCoordinate(l.y, l.z, l.x, a.y, a.z, a.x, b.y, b.z, b.x);
    TripleCrossCoordinate(l.z, l.x, l.y, a.z, a.x, a.y, b.z, b.x, b.y);
  }

  /** The cross product is the only answer up to scale: every vector incident
      with both a and b is proportional to Cross(a, b). So the line through two
      distinct points (and the meeting point of two distinct lines) is unique.
      When a and b are proportional, Cross(a, b) is Zero, to which every
      vector is proportional, and the statement says nothing. */
  lemma IncidentWithBothIsProportional(a: Vec3, b: Vec3, l: Vec3)
    requires Dot(a, l) == 0 && Dot(b, l) == 0
    ensures Proportional(l, Cross(a, b))
  {
    assert Dot(l, a) == 0 && Dot(l, b) == 0;
    TripleCross(l, a, b);
    CrossZeroIffProportional(l, Cross(a, b));
  }

  /** The homogeneous component w of the meeting point of two lines is zero
      exactly when the lines' normals (a.x, a.y) and (b.x, b.y) are
      proportional, that is when the lines are parallel and meet at infinity. */
  lemma AtInfinityIffParallel(a: Vec3, b: Vec3)
    ensures Cross(a, b).z == 0 <==> Proportional(Vec3(a.x, a.y, 0), Vec3(b.x, b.y, 0))
  {
    var na, nb := Vec3(a.x, a.y, 0), Vec3(b.x, b.y, 0);
    assert Cross(na, nb) == Vec3(0, 0, Cross(a, b).z);
    CrossZeroIffProportional(na, nb);
  }

  /** The line through the points (1, 2) and (4, 3). */
  lemma LineThroughExample()
    ensures Cross(Vec3(1, 2, 1), Vec3(4, 3, 1)) == Vec3(-1, 3, -5)
  {
  }

  /** The meeting point of the parallel lines 3x - y + 7 = 0 and
      3x - y - 3 = 0 is a point at infinity. */
  lemma IntersectionExample()
    ensures Cross(Vec3(3, -1, 7), Vec3(3, -1, -3)) == Vec3(10, 30, 0)
    ensures Cross(Vec3(3, -1, 7), Vec3(3, -1, -3)).z == 0
  {
  }
}
