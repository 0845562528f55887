/**
 * Creating and mutating single shapes. Every random() call becomes a draw
 * parameter; a procedure that updates a struct triangle through a pointer
 * takes the old value and returns the new one.
 */
module Generate {
  import opened Random
  import opened Shapes

  /** Draws used by randomtriangle: the type, six vertex coordinates, four colour values. */
  const RANDOM_SHAPE_DRAWS: nat := 11
  /** Draws used by randomsmalltriangle: the anchor x and y, the type, six offsets, four colour values. */
  const SMALL_SHAPE_DRAWS: nat := 13

  /** Every coordinate of g is within delta of the corresponding one of h (same alternative). */
  predicate Near(g: Geometry, h: Geometry, delta: int) {
    match (g, h)
    case (Triangle(a1, a2, a3), Triangle(b1, b2, b3)) =>
      NearPoint(a1, b1, delta) && NearPoint(a2, b2, delta) && NearPoint(a3, b3, delta)
    case (Circle(c, r), Circle(d, q)) =>
      NearPoint(c, d, delta) && Abs(r - q) <= delta
    case _ => false
  }

  predicate NearPoint(p: Point, q: Point, delta: int) {
    Abs(p.x - q.x) <= delta && Abs(p.y - q.y) <= delta
  }

  /** A small shape around anchor: a circle centred on it with radius at most delta, or a triangle with every vertex within delta of it. */
  predicate PlacedAround(t: Shape, anchor: Point, delta: int) {
    if t.geom.Circle? then t.geom.center == anchor && 0 <= t.geom.radius <= delta
    else NearPoint(t.geom.p1, anchor, delta) && NearPoint(t.geom.p2, anchor, delta) && NearPoint(t.geom.p3, anchor, delta)
  }

  /** setRandomColor: each channel is random() % 256, alpha is randbetween(MINALPHA, MAXALPHA). */
  method SetRandomColor(s: Shape, ds: seq<int>) returns (t: Shape)
    requires IsDraws(ds, 4)
    ensures t.geom == s.geom
    ensures t.r == ds[0] % 256 && t.g == ds[1] % 256 && t.b == ds[2] % 256
    ensures MIN_ALPHA <= t.alpha <= MAX_ALPHA
  {
    t := s.(r := ds[0] % 256, g := ds[1] % 256, b := ds[2] % 256);
    t := t.(alpha := RandBetween(MIN_ALPHA, MAX_ALPHA, ds[3]));
  }

  /** setRandomVertexes: coordinates uniformly on the canvas; a circle's radius is random() % width. */
  method SetRandomVertexes(s: Shape, width: int, height: int, ds: seq<int>) returns (t: Shape)
    requires width >= 1 && height >= 1 && IsDraws(ds, 6)
    ensures TypeOf(t) == TypeOf(s)
    ensures t.r == s.r && t.g == s.g && t.b == s.b && t.alpha == s.alpha
    ensures t.geom.Triangle? ==>
      InCanvas(t.geom.p1, width, height) && InCanvas(t.geom.p2, width, height) && InCanvas(t.geom.p3, width, height)
    ensures t.geom.Circle? ==> InCanvas(t.geom.center, width, height) && 0 <= t.geom.radius < width
  {
    if s.geom.Triangle? {
      t := s.(geom := Triangle(Point(ds[0] % width, ds[1] % height),
                               Point(ds[2] % width, ds[3] % height),
                               Point(ds[4] % width, ds[5] % height)));
    } else {
      t := s.(geom := Circle(Point(ds[0] % width, ds[1] % height), ds[2] % width));
    }
  }

  /** moveVertexes: every coordinate (and a circle's radius) moves by randbetween(-delta, delta). */
  method MoveVertexes(s: Shape, delta: int, ds: seq<int>) returns (t: Shape)
    requires delta >= 0 && IsDraws(ds, 6)
    ensures TypeOf(t) == TypeOf(s)
    ensures t.r == s.r && t.g == s.g && t.b == s.b && t.alpha == s.alpha
    ensures Near(t.geom, s.geom, delta)
  {
    match s.geom
    case Triangle(p1, p2, p3) =>
      t := s.(geom := Triangle(
        Point(p1.x + RandBetween(-delta, delta, ds[0]), p1.y + RandBetween(-delta, delta, ds[1])),
        Point(p2.x + RandBetween(-delta, delta, ds[2]), p2.y + RandBetween(-delta, delta, ds[3])),
        Point(p3.x + RandBetween(-delta, delta, ds[4]), p3.y + RandBetween(-delta, delta, ds[5]))));
    case Circle(c, radius) =>
      t := s.(geom := Circle(
        Point(c.x + RandBetween(-delta, delta, ds[0]), c.y + RandBetween(-delta, delta, ds[1])),
        radius + RandBetween(-delta, delta, ds[2])));
  }

  /** A record whose every field is about to be overwritten, with the given type. */
  function Blank(k: ShapeType): (s: Shape)
    ensures TypeOf(s) == k
  {
    var o := Point(0, 0);
    Shape(0, 0, 0, 0, if k == TypeTriangle then Triangle(o, o, o) else Circle(o, 0))
  }

  /** randomtriangle: pick the type, random geometry, random colour, normalise. */
  method RandomShape(width: int, height: int, opts: Options, ds: seq<int>) returns (t: Shape)
    requires width >= 1 && height >= 1 && IsDraws(ds, RANDOM_SHAPE_DRAWS)
    ensures WellFormed(t, width, height)
    ensures TypeOf(t) == SelectShapeType(opts, ds[0])
  {
    t := Blank(SelectShapeType(opts, ds[0]));
    t := SetRandomVertexes(t, width, height, ds[1..7]);
    t := SetRandomColor(t, ds[7..11]);
    t := Normalize(t, width, height);
  }

  /**
   * randomsmalltriangle: like randomtriangle, but every vertex is an offset in
   * [-delta, delta] from one random anchor; a circle is centred on the anchor
   * with radius randbetween(1, delta).
   */
  method RandomSmallShape(width: int, height: int, delta: int, opts: Options, ds: seq<int>) returns (t: Shape)
    requires width >= 1 && height >= 1 && delta >= 1 && IsDraws(ds, SMALL_SHAPE_DRAWS)
    ensures WellFormed(t, width, height)
    ensures TypeOf(t) == SelectShapeType(opts, ds[2])
    ensures t.geom.Circle? ==>
      exists r0 :: 1 <= r0 <= delta &&
        t.geom == NormalizedCircle(Circle(Point(ds[0] % width, ds[1] % height), r0), width, height)
    ensures t.geom.Circle? ==> t.geom.center == Point(ds[0] % width, ds[1] % height) && 0 <= t.geom.radius <= delta
    ensures t.geom.Triangle? ==>
      var anchor := Point(ds[0] % width, ds[1] % height);
      NearPoint(t.geom.p1, anchor, delta) && NearPoint(t.geom.p2, anchor, delta) && NearPoint(t.geom.p3, anchor, delta)
  {
    var x := ds[0] % width;
    var y := ds[1] % height;
    t := Blank(SelectShapeType(opts, ds[2]));
    var raw := PlaceAround(t.geom, Point(x, y), delta, ds[3..9]);
    t := t.(geom := raw);
    t := SetRandomColor(t, ds[9..13]);
    t := Normalize(t, width, height);
    if raw.Triangle? {
      NormalizedTriangleNear(raw, Point(x, y), width, height, delta);
    } else {
      assert t.geom == NormalizedCircle(Circle(Point(x, y), raw.radius), width, height);
    }
  }

  /**
   * The geometry step of randomsmalltriangle: each vertex is the anchor moved
   * by randbetween(-delta, delta) per coordinate; a circle sits on the anchor
   * with radius randbetween(1, delta).
   */
  method PlaceAround(g: Geometry, anchor: Point, delta: int, ds: seq<int>) returns (n: Geometry)
    requires delta >= 1 && IsDraws(ds, 6)
    ensures n.Triangle? == g.Triangle?
    ensures n.Triangle? ==> NearPoint(n.p1, anchor, delta) && NearPoint(n.p2, anchor, delta) && NearPoint(n.p3, anchor, delta)
    ensures n.Circle? ==> n.center == anchor && 1 <= n.radius <= delta
  {
    var (x, y) := (anchor.x, anchor.y);
    if g.Triangle? {
      n := Triangle(
        Point(x + RandBetween(-delta, delta, ds[0]), y + RandBetween(-delta, delta, ds[1])),
        Point(x + RandBetween(-delta, delta, ds[2]), y + RandBetween(-delta, delta, ds[3])),
        Point(x + RandBetween(-delta, delta, ds[4]), y + RandBetween(-delta, delta, ds[5])));
    } else {
      n := Circle(anchor, RandBetween(1, delta, ds[0]));
    }
  }

  /** Normalising a triangle whose vertices are all within delta of an on-canvas anchor keeps them within delta. */
  lemma NormalizedTriangleNear(g: Geometry, anchor: Point, width: int, height: int, delta: int)
    requires g.Triangle? && width >= 1 && height >= 1 && InCanvas(anchor, width, height)
    requires NearPoint(g.p1, anchor, delta) && NearPoint(g.p2, anchor, delta) && NearPoint(g.p3, anchor, delta)
    ensures var n := NormalizedTriangle(g, width, height);
      NearPoint(n.p1, anchor, delta) && NearPoint(n.p2, anchor, delta) && NearPoint(n.p3, anchor, delta)
  {
    ClampPointCloser(g.p1, anchor, width, height, delta);
    ClampPointCloser(g.p2, anchor, width, height, delta);
    ClampPointCloser(g.p3, anchor, width, height, delta);
  }

  /** A vertex within delta of an on-canvas anchor stays within delta once clamped. */
  lemma ClampPointCloser(p: Point, anchor: Point, width: int, height: int, delta: int)
    requires width >= 1 && height >= 1 && InCanvas(anchor, width, height) && NearPoint(p, anchor, delta)
    ensures NearPoint(ClampPoint(p, width, height), anchor, delta)
  {
  }

  /**
   * mutatetriangle: one of six mutations chosen by random() % 6 — new random
   * geometry, a move by up to 20 or up to 5 pixels (each renormalised), new
   * random colour, a colour jitter of up to 5 per channel clamped to
   * [0, 255], or a new random alpha.
   */
  method MutateShape(s: Shape, width: int, height: int, choiceDraw: int, ds: seq<int>) returns (t: Shape)
    requires width >= 1 && height >= 1 && IsDraw(choiceDraw) && IsDraws(ds, 6)
    ensures TypeOf(t) == TypeOf(s)
    ensures WellFormed(s, width, height) ==> WellFormed(t, width, height)
    ensures choiceDraw % 6 <= 2 ==>
      t.r == s.r && t.g == s.g && t.b == s.b && t.alpha == s.alpha && Normal(t.geom, width, height)
    ensures choiceDraw % 6 == 1 ==> exists g :: Near(g, s.geom, 20) && t.geom == NormalizedGeometry(g, width, height)
    ensures choiceDraw % 6 == 2 ==> exists g :: Near(g, s.geom, 5) && t.geom == NormalizedGeometry(g, width, height)
    ensures choiceDraw % 6 == 3 ==>
      t.geom == s.geom && t.alpha == s.alpha && t.r == ds[0] % 256 && t.g == ds[1] % 256 && t.b == ds[2] % 256
    ensures choiceDraw % 6 == 4 ==>
      t.geom == s.geom && t.alpha == s.alpha &&
      Abs(t.r - s.r) <= 5 && Abs(t.g - s.g) <= 5 && Abs(t.b - s.b) <= 5
    ensures choiceDraw % 6 == 5 ==> t == s.(alpha := t.alpha) && MIN_ALPHA <= t.alpha <= MAX_ALPHA
  {
    var choice := choiceDraw % 6;
    if choice == 0 {
      t := SetRandomVertexes(s, width, height, ds);
      t := Normalize(t, width, height);
    } else if choice == 1 {
      t := MoveVertexes(s, 20, ds);
      ghost var moved := t.geom;
      t := Normalize(t, width, height);
      assert t.geom == NormalizedGeometry(moved, width, height);
    } else if choice == 2 {
      t := MoveVertexes(s, 5, ds);
      ghost var moved := t.geom;
      t := Normalize(t, width, height);
      assert t.geom == NormalizedGeometry(moved, width, height);
    } else if choice == 3 {
      t := s.(r := ds[0] % 256, g := ds[1] % 256, b := ds[2] % 256);
    } else if choice == 4 {
      var r := s.r + RandBetween(-5, 5, ds[0]);
      var g := s.g + RandBetween(-5, 5, ds[1]);
      var b := s.b + RandBetween(-5, 5, ds[2]);
      if r < 0 { r := 0; } else if r > 255 { r := 255; }
      if g < 0 { g := 0; } else if g > 255 { g := 255; }
      if b < 0 { b := 0; } else if b > 255 { b := 255; }
      t := s.(r := r, g := g, b := b);
    } else {
      t := s.(alpha := RandBetween(MIN_ALPHA, MAX_ALPHA, ds[0]));
    }
  }
}
