/**
 * The exact part of the factory's geometry: the 3x3 determinant with a
 * constant column, the elevation-weighted tetrahedral sum built from it, the
 * thresholded side parity of a double bond, and the 3D vector algebra.
 * Doubles are modelled as exact reals; unit vectors (square roots) are not
 * computed here.
 */
module StereoGeometry {
  import opened Wrappers
  import opened StereoBonds

  /** Below this absolute determinant a 2D double-bond side counts as undetermined. */
  const THRESHOLD: real := 0.1

  function Abs(r: real): real {
    if r < 0.0 then -r else r
  }

  /** `(int) Math.signum(r)`. */
  function Signum(r: real): int {
    if r > 0.0 then 1 else if r < 0.0 then -1 else 0
  }

  /** `det(xa, ya, xb, yb, xc, yc)`: the 3x3 determinant whose third column is all ones. */
  function Det(a: Point, b: Point, c: Point): real {
    (a.x - c.x) * (b.y - c.y) - (a.y - c.y) * (b.x - c.x)
  }

  /** The determinant is the cofactor expansion of the matrix with rows (x, y, 1). */
  lemma DetExpansion(a: Point, b: Point, c: Point)
    ensures Det(a, b, c) == a.x * b.y - a.y * b.x + b.x * c.y - b.y * c.x + c.x * a.y - c.y * a.x
  {
  }

  /** Exchanging two rows negates the determinant; rotating them keeps it. */
  lemma DetSymmetries(a: Point, b: Point, c: Point)
    ensures Det(b, a, c) == -Det(a, b, c)
    ensures Det(a, c, b) == -Det(a, b, c)
    ensures Det(b, c, a) == Det(a, b, c)
  {
    DetExpansion(a, b, c);
    DetExpansion(b, a, c);
    DetExpansion(a, c, b);
    DetExpansion(b, c, a);
  }

  /**
   * `parity(Point2d[], int[])`: the elevation-weighted signed volume of the
   * tetrahedron over four planar points, expanded along the weight column.
   */
  function ParitySum(p: seq<Point>, w: seq<real>): real
    requires |p| == 4 && |w| == 4
  {
    w[0] * Det(p[1], p[2], p[3]) - w[1] * Det(p[0], p[2], p[3])
      + w[2] * Det(p[0], p[1], p[3]) - w[3] * Det(p[0], p[1], p[2])
  }

  function Negated(w: seq<real>): (r: seq<real>)
    ensures |r| == |w| && forall k :: 0 <= k < |w| ==> r[k] == -w[k]
  {
    seq(|w|, k requires 0 <= k < |w| => -w[k])
  }

  /** Mirroring every elevation through the plane reverses the winding. */
  lemma ParitySumNegated(p: seq<Point>, w: seq<real>)
    requires |p| == 4 && |w| == 4
    ensures ParitySum(p, Negated(w)) == -ParitySum(p, w)
  {
    var n := Negated(w);
    assert n[0] == -w[0] && n[1] == -w[1] && n[2] == -w[2] && n[3] == -w[3];
  }

  /** Exchanging the first two neighbours (with their elevations) reverses the winding. */
  lemma ParitySumSwap(p: seq<Point>, w: seq<real>)
    requires |p| == 4 && |w| == 4
    ensures ParitySum([p[1], p[0], p[2], p[3]], [w[1], w[0], w[2], w[3]]) == -ParitySum(p, w)
  {
    DetSymmetries(p[0], p[1], p[3]);
    DetSymmetries(p[0], p[1], p[2]);
  }

  /** Exchanging the first pair of neighbours with the second pair (an even permutation) keeps the winding. */
  lemma ParitySumPairSwap(p: seq<Point>, w: seq<real>)
    requires |p| == 4 && |w| == 4
    ensures ParitySum([p[2], p[3], p[0], p[1]], [w[2], w[3], w[0], w[1]]) == ParitySum(p, w)
  {
    DetExpansion(p[3], p[0], p[1]);
    DetExpansion(p[0], p[1], p[3]);
    DetExpansion(p[2], p[0], p[1]);
    DetExpansion(p[0], p[1], p[2]);
    DetExpansion(p[2], p[3], p[1]);
    DetExpansion(p[1], p[2], p[3]);
    DetExpansion(p[2], p[3], p[0]);
    DetExpansion(p[0], p[2], p[3]);
  }

  /** Neighbours that all share one elevation span no volume: the layout is flat. */
  lemma ParitySumUniform(p: seq<Point>, c: real)
    requires |p| == 4
    ensures ParitySum(p, [c, c, c, c]) == 0.0
  {
    DetExpansion(p[1], p[2], p[3]);
    DetExpansion(p[0], p[2], p[3]);
    DetExpansion(p[0], p[1], p[3]);
    DetExpansion(p[0], p[1], p[2]);
    var d := Det(p[1], p[2], p[3]) - Det(p[0], p[2], p[3]) + Det(p[0], p[1], p[3]) - Det(p[0], p[1], p[2]);
    assert d == 0.0;
    assert ParitySum(p, [c, c, c, c]) == c * d;
  }

  /**
   * `parity(IAtom[])` of the 2D factory: the side of a double bond given
   * substituent `a`, the other substituent (or the atom itself) `b` and the
   * double-bonded partner `c`; 0 when a point is missing or the triangle is
   * too flat to tell.
   */
  function SideParity(a: Option<Point>, b: Option<Point>, c: Option<Point>): (r: int)
    ensures -1 <= r <= 1
    ensures r == 0 <==> a.None? || b.None? || c.None? || Abs(Det(a.value, b.value, c.value)) < THRESHOLD
    ensures r == 1 <==> a.Some? && b.Some? && c.Some? && Det(a.value, b.value, c.value) >= THRESHOLD
  {
    if a.None? || b.None? || c.None? then 0
    else
      var d := Det(a.value, b.value, c.value);
      if Abs(d) < THRESHOLD then 0 else Signum(d)
  }

  /** Exchanging the two substituents of one end flips that end's parity. */
  lemma SideParitySwap(a: Option<Point>, b: Option<Point>, c: Option<Point>)
    ensures SideParity(b, a, c) == -SideParity(a, b, c)
  {
    if a.Some? && b.Some? && c.Some? {
      DetSymmetries(a.value, b.value, c.value);
    }
  }

  /** Whether two bond directions, once normalised, have a negative dot product (a zero vector normalises to NaN). */
  predicate Opposed(u: Point, v: Point) {
    u.x * v.x + u.y * v.y < 0.0
  }

  /** Pointing away from each other is symmetric. */
  lemma OpposedSymmetric()
    ensures forall u, v :: Opposed(u, v) == Opposed(v, u)
  {
  }

  function Minus(a: Point, b: Point): Point {
    Point(a.x - b.x, a.y - b.y)
  }

  /** The point the 2D atropisomer creator uses as the axis centre, as written: the y part averages the second end with itself. */
  function MidpointAsWritten(end1: Point, end2: Point): Point {
    Point((end1.x + end2.x) / 2.0, (end2.y + end2.y) / 2.0)
  }

  /** The centre of the axis the creator evidently means. */
  function Midpoint(end1: Point, end2: Point): Point {
    Point((end1.x + end2.x) / 2.0, (end1.y + end2.y) / 2.0)
  }

  function Dist2(a: Point, b: Point): real {
    (a.x - b.x) * (a.x - b.x) + (a.y - b.y) * (a.y - b.y)
  }

  /** The point as written always sits at the second end's height. */
  lemma MidpointAsWrittenHeight(e1: Point, e2: Point)
    ensures MidpointAsWritten(e1, e2).y == e2.y
  {
  }

  /** So whenever the ends differ in height it depends on which end is named first and is not the centre. */
  lemma MidpointAsWrittenSkewed(e1: Point, e2: Point)
    requires e1.y != e2.y
    ensures MidpointAsWritten(e1, e2) != MidpointAsWritten(e2, e1)
    ensures MidpointAsWritten(e1, e2) != Midpoint(e1, e2)
  {
    MidpointAsWrittenHeight(e1, e2);
    MidpointAsWrittenHeight(e2, e1);
  }

  /** The corrected centre does not depend on the order of the ends and is equally far from both. */
  lemma MidpointCentred(e1: Point, e2: Point)
    ensures Midpoint(e1, e2) == Midpoint(e2, e1)
    ensures Dist2(Midpoint(e1, e2), e1) == Dist2(Midpoint(e1, e2), e2)
    ensures 4.0 * Dist2(Midpoint(e1, e2), e1) == Dist2(e1, e2)
  {
  }

  // ---- 3D ----

  function Sub3(src: Point3, dest: Point3): Point3 {
    Point3(dest.x - src.x, dest.y - src.y, dest.z - src.z)
  }

  function Dot3(u: Point3, v: Point3): real {
    u.x * v.x + u.y * v.y + u.z * v.z
  }

  function Cross3(u: Point3, v: Point3): Point3 {
    Point3(u.y * v.z - v.y * u.z, u.z * v.x - v.z * u.x, u.x * v.y - v.x * u.y)
  }

  /** The cross product is perpendicular to both factors. */
  lemma CrossPerpendicular(u: Point3, v: Point3)
    ensures Dot3(Cross3(u, v), u) == 0.0 && Dot3(Cross3(u, v), v) == 0.0
  {
  }

  /**
   * `parity(Point3d u, v, x, w)`: compares the substituents `x` (on `u`) and
   * `w` (on `v`) against the normal of the double bond in the plane of u, v, w;
   * the product of the two signs, inverted.
   */
  function BondParity3D(u: Point3, v: Point3, x: Point3, w: Point3): (r: int)
    ensures -1 <= r <= 1
  {
    var vu := Sub3(v, u);
    var vw := Sub3(v, w);
    var ux := Sub3(u, x);
    var normal := Cross3(vu, Cross3(vu, vw));
    -(Signum(Dot3(normal, vw)) * Signum(Dot3(normal, ux)))
  }

  function XY(p: Point3): Point {
    Point(p.x, p.y)
  }

  /** `parity(IAtom[])` of the 3D factory on present coordinates: the sign of the z-weighted volume. */
  function TetrahedralParity3D(p: seq<Point3>): (r: int)
    requires |p| == 4
    ensures -1 <= r <= 1
  {
    Signum(ParitySum([XY(p[0]), XY(p[1]), XY(p[2]), XY(p[3])], [p[0].z, p[1].z, p[2].z, p[3].z]))
  }

  /** Opposed directions in 3D, as for `Opposed`. */
  predicate Opposed3(u: Point3, v: Point3) {
    Dot3(u, v) < 0.0
  }

  /** The dot product, and so pointing away from each other, is symmetric. */
  lemma Dot3Symmetric()
    ensures forall u, v :: Dot3(u, v) == Dot3(v, u)
  {
  }
}
