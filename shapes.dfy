/**
 * The shape record (struct triangle) and its normalisation: the vertices of a
 * triangle are ordered by y and clamped into the canvas, a circle's centre is
 * clamped and its radius shrunk until the disc fits.
 */
module Shapes {
  import opened Random

  /** An unsigned char. */
  type Byte = x: int | 0 <= x < 256

  /** Range of the alpha percentage of a shape (MINALPHA, MAXALPHA). */
  const MIN_ALPHA: int := 1
  const MAX_ALPHA: int := 100

  datatype Point = Point(x: int, y: int)

  /** The union inside struct triangle; which alternative is live is the record's type. */
  datatype Geometry =
    | Triangle(p1: Point, p2: Point, p3: Point)
    | Circle(center: Point, radius: int)

  /** TYPE_TRIANGLE and TYPE_CIRCLE. */
  datatype ShapeType = TypeTriangle | TypeCircle

  datatype Shape = Shape(r: Byte, g: Byte, b: Byte, alpha: Byte, geom: Geometry)

  function TypeOf(s: Shape): ShapeType {
    if s.geom.Triangle? then TypeTriangle else TypeCircle
  }

  /** The command-line switches --use-triangles and --use-circles (non-zero means set). */
  datatype Options = Options(useTriangles: bool, useCircles: bool)

  /**
   * selectShapeType: a coin (random() & 1) only when both kinds are enabled;
   * otherwise circles when circles are enabled, triangles in every other case.
   */
  function SelectShapeType(opts: Options, d: int): (t: ShapeType)
    requires IsDraw(d)
    ensures t == TypeCircle ==> opts.useCircles
    ensures !opts.useCircles ==> t == TypeTriangle
    ensures opts.useCircles && !opts.useTriangles ==> t == TypeCircle
  {
    var triangle :=
      if opts.useCircles && opts.useTriangles then d % 2 == 1
      else if opts.useCircles then false
      else true;
    if triangle then TypeTriangle else TypeCircle
  }

  /** With both kinds enabled, each kind is the result of some draw. */
  lemma SelectShapeTypeBoth(opts: Options)
    requires opts.useCircles && opts.useTriangles
    ensures SelectShapeType(opts, 0) == TypeCircle && SelectShapeType(opts, 1) == TypeTriangle
  {
  }

  predicate InCanvas(p: Point, width: int, height: int) {
    0 <= p.x < width && 0 <= p.y < height
  }

  /** The pair of tests `if (v < 0) v = 0; if (v >= n) v = n-1;` applied to one coordinate. */
  function Clamp(v: int, n: int): (c: int)
    requires n >= 1
    ensures 0 <= c < n
    ensures 0 <= v < n ==> c == v
    ensures v < 0 ==> c == 0
    ensures v >= n ==> c == n - 1
  {
    var low := if v < 0 then 0 else v;
    if low >= n then n - 1 else low
  }

  /** Clamping never reorders two coordinates, so it keeps the vertices sorted by y. */
  lemma ClampMonotonic(u: int, v: int, n: int)
    requires n >= 1 && u <= v
    ensures Clamp(u, n) <= Clamp(v, n)
  {
  }

  /** Clamping moves a coordinate toward any point of [0, n), never away from it. */
  lemma ClampCloser(v: int, a: int, n: int)
    requires n >= 1 && 0 <= a < n
    ensures Abs(Clamp(v, n) - a) <= Abs(v - a)
  {
  }

  function ClampPoint(p: Point, width: int, height: int): (q: Point)
    requires width >= 1 && height >= 1
    ensures InCanvas(q, width, height)
    ensures InCanvas(p, width, height) ==> q == p
  {
    Point(Clamp(p.x, width), Clamp(p.y, height))
  }

  function Min(a: int, b: int): int {
    if a <= b then a else b
  }

  /** The largest radius for which a disc at c stays inside the canvas. */
  function Fit(c: Point, width: int, height: int): int {
    Min(Min(c.x, width - 1 - c.x), Min(c.y, height - 1 - c.y))
  }

  /** The negation of normalizeCircle's loop condition: every extreme point of the disc is on the canvas. */
  predicate DiscInside(c: Point, radius: int, width: int, height: int) {
    0 <= c.x - radius && c.x + radius < width && 0 <= c.y - radius && c.y + radius < height
  }

  lemma DiscInsideIffFit(c: Point, radius: int, width: int, height: int)
    requires InCanvas(c, width, height)
    ensures DiscInside(c, radius, width, height) <==> radius <= Fit(c, width, height)
  {
  }

  /** What the rasterizer relies on: a triangle ordered by y inside the canvas, a circle whose disc fits. */
  predicate Normal(g: Geometry, width: int, height: int) {
    match g
    case Triangle(p1, p2, p3) =>
      p1.y <= p2.y <= p3.y &&
      InCanvas(p1, width, height) && InCanvas(p2, width, height) && InCanvas(p3, width, height)
    case Circle(c, radius) =>
      InCanvas(c, width, height) && radius <= Fit(c, width, height)
  }

  /** A shape as every generator and mutator leaves it. */
  predicate WellFormed(s: Shape, width: int, height: int) {
    MIN_ALPHA <= s.alpha <= MAX_ALPHA && Normal(s.geom, width, height)
  }

  // ----- Triangles -------------------------------------------------------

  /** The three vertices in non-decreasing y order; vertices with equal y keep their input order. */
  function SortByY(a: Point, b: Point, c: Point): (r: (Point, Point, Point))
    ensures r.0.y <= r.1.y <= r.2.y
    ensures r == (a, b, c) || r == (a, c, b) || r == (b, a, c) || r == (b, c, a) || r == (c, a, b) || r == (c, b, a)
    ensures a.y <= b.y <= c.y ==> r == (a, b, c)
  {
    if a.y <= b.y then
      if b.y <= c.y then (a, b, c)
      else if a.y <= c.y then (a, c, b)
      else (c, a, b)
    else
      if a.y <= c.y then (b, a, c)
      else if b.y <= c.y then (b, c, a)
      else (c, b, a)
  }

  /** Number of vertex pairs out of y order: the variant of the swap loop. */
  function Inversions(y1: int, y2: int, y3: int): nat {
    (if y1 > y2 then 1 else 0) + (if y1 > y3 then 1 else 0) + (if y2 > y3 then 1 else 0)
  }

  /** normalizeTriangle as a value: stable sort by y, then clamp each coordinate. */
  function NormalizedTriangle(g: Geometry, width: int, height: int): (n: Geometry)
    requires g.Triangle? && width >= 1 && height >= 1
    ensures n.Triangle? && Normal(n, width, height)
  {
    var (a, b, c) := SortByY(g.p1, g.p2, g.p3);
    ClampMonotonic(a.y, b.y, height);
    ClampMonotonic(b.y, c.y, height);
    Triangle(ClampPoint(a, width, height), ClampPoint(b, width, height), ClampPoint(c, width, height))
  }

  /** Normalising only reorders the clamped vertices: no vertex is lost or invented. */
  lemma NormalizedTriangleVertices(g: Geometry, width: int, height: int)
    requires g.Triangle? && width >= 1 && height >= 1
    ensures var n := NormalizedTriangle(g, width, height);
      multiset{n.p1, n.p2, n.p3} ==
      multiset{ClampPoint(g.p1, width, height), ClampPoint(g.p2, width, height), ClampPoint(g.p3, width, height)}
  {
  }

  /** Normalising a triangle that is already normal changes nothing; so normalising twice is normalising once. */
  lemma NormalizedTriangleIdempotent(g: Geometry, width: int, height: int)
    requires g.Triangle? && width >= 1 && height >= 1
    ensures Normal(g, width, height) ==> NormalizedTriangle(g, width, height) == g
    ensures NormalizedTriangle(NormalizedTriangle(g, width, height), width, height) == NormalizedTriangle(g, width, height)
  {
  }

  /**
   * normalizeTriangle: a do-while loop of compare-and-swap passes over the
   * (x, y) vertex pairs, then the twelve clamping tests.
   */
  method NormalizeTriangle(s: Shape, width: int, height: int) returns (t: Shape)
    requires s.geom.Triangle? && width >= 1 && height >= 1
    ensures t == s.(geom := NormalizedTriangle(s.geom, width, height))
    ensures t.geom.p1.y <= t.geom.p2.y <= t.geom.p3.y
    ensures InCanvas(t.geom.p1, width, height) && InCanvas(t.geom.p2, width, height) && InCanvas(t.geom.p3, width, height)
  {
    var x1, y1, x2, y2, x3, y3 := s.geom.p1.x, s.geom.p1.y, s.geom.p2.x, s.geom.p2.y, s.geom.p3.x, s.geom.p3.y;
    var swapped := true;  // a do-while loop runs its body at least once
    while swapped
      invariant SortByY(Point(x1, y1), Point(x2, y2), Point(x3, y3)) == SortByY(s.geom.p1, s.geom.p2, s.geom.p3)
      invariant !swapped ==> y1 <= y2 <= y3
      decreases Inversions(y1, y2, y3) + (if swapped then 1 else 0)
    {
      swapped := false;
      if y1 > y2 {
        y1, y2 := y2, y1;
        x1, x2 := x2, x1;
        swapped := true;
      }
      if y2 > y3 {
        y2, y3 := y3, y2;
        x2, x3 := x3, x2;
        swapped := true;
      }
    }
    x1, y1 := Clamp(x1, width), Clamp(y1, height);
    x2, y2 := Clamp(x2, width), Clamp(y2, height);
    x3, y3 := Clamp(x3, width), Clamp(y3, height);
    t := s.(geom := Triangle(Point(x1, y1), Point(x2, y2), Point(x3, y3)));
  }

  // ----- Circles ---------------------------------------------------------

  /** normalizeCircle as a value: clamp the centre, then the largest radius not above the old one that fits. */
  function NormalizedCircle(g: Geometry, width: int, height: int): (n: Geometry)
    requires g.Circle? && width >= 1 && height >= 1
    ensures n.Circle? && Normal(n, width, height)
    ensures n.center == ClampPoint(g.center, width, height)
    ensures n.radius <= g.radius
    ensures g.radius < 0 ==> n.radius == g.radius
    ensures g.radius >= 0 ==> 0 <= n.radius && DiscInside(n.center, n.radius, width, height)
    ensures forall r :: n.radius < r <= g.radius ==> !DiscInside(n.center, r, width, height)
  {
    var c := ClampPoint(g.center, width, height);
    Circle(c, Min(g.radius, Fit(c, width, height)))
  }

  lemma NormalizedCircleIdempotent(g: Geometry, width: int, height: int)
    requires g.Circle? && width >= 1 && height >= 1
    ensures Normal(g, width, height) ==> NormalizedCircle(g, width, height) == g
    ensures NormalizedCircle(NormalizedCircle(g, width, height), width, height) == NormalizedCircle(g, width, height)
  {
  }

  /**
   * normalizeCircle: clamp the centre, then decrement the radius while some
   * extreme point of the disc is off the canvas. A negative radius already
   * passes the test and is kept.
   */
  method NormalizeCircle(s: Shape, width: int, height: int) returns (t: Shape)
    requires s.geom.Circle? && width >= 1 && height >= 1
    ensures t == s.(geom := NormalizedCircle(s.geom, width, height))
    ensures InCanvas(t.geom.center, width, height)
    ensures s.geom.radius < 0 ==> t.geom.radius == s.geom.radius
    ensures s.geom.radius >= 0 ==> t.geom.radius == Min(s.geom.radius, Fit(t.geom.center, width, height))
  {
    var x := Clamp(s.geom.center.x, width);
    var y := Clamp(s.geom.center.y, height);
    var radius := s.geom.radius;
    ghost var fit := Fit(Point(x, y), width, height);
    while x - radius < 0 || x + radius >= width || y - radius < 0 || y + radius >= height
      invariant Min(s.geom.radius, fit) <= radius <= s.geom.radius
      decreases radius - fit
    {
      radius := radius - 1;
    }
    t := s.(geom := Circle(Point(x, y), radius));
  }

  /** normalize as a value, on either alternative. */
  function NormalizedGeometry(g: Geometry, width: int, height: int): (n: Geometry)
    requires width >= 1 && height >= 1
    ensures Normal(n, width, height)
    ensures n.Triangle? == g.Triangle?
  {
    if g.Triangle? then NormalizedTriangle(g, width, height) else NormalizedCircle(g, width, height)
  }

  /** normalize: dispatch on the shape's type. */
  method Normalize(s: Shape, width: int, height: int) returns (t: Shape)
    requires width >= 1 && height >= 1
    ensures Normal(t.geom, width, height)
    ensures t.geom == NormalizedGeometry(s.geom, width, height)
    ensures t.r == s.r && t.g == s.g && t.b == s.b && t.alpha == s.alpha
  {
    if s.geom.Triangle? {
      t := NormalizeTriangle(s, width, height);
    } else {
      t := NormalizeCircle(s, width, height);
    }
  }
}
