/**
 * The RGB frame buffer and the drawing primitives that write it: three bytes
 * per pixel, rows of `width` pixels one after the other. The float blend
 * `alpha * colour + (1 - alpha) * old` is a parameter `mix` taking the
 * colour channel and the old byte to the new byte; what is modelled is which
 * bytes are written, with which channel, and in which order.
 */
module Raster {
  import opened Shapes
  import opened ShapeSets

  /** The channel a byte of the buffer holds: red, green, blue, red, ... */
  function Channel(r: int, g: int, b: int, i: int): int {
    if i % 3 == 0 then r else if i % 3 == 1 then g else b
  }

  /**
   * The buffer with the pixels numbered first..last (counting from the top
   * left, row after row) blended with the colour; an empty range when
   * last < first.
   */
  function Span(buf: seq<Byte>, first: int, last: int, r: int, g: int, b: int, mix: (int, Byte) -> Byte): seq<Byte> {
    seq(|buf|, i requires 0 <= i < |buf| =>
      if first * 3 <= i < (last + 1) * 3 then mix(Channel(r, g, b, i), buf[i]) else buf[i])
  }

  /** The pixel numbers of a row-major canvas: (x, y) is pixel y * width + x, and it lies in the buffer. */
  lemma PixelNumber(x: int, y: int, width: int, height: int)
    requires 0 <= x < width && 0 <= y < height
    ensures 0 <= y * width + x < width * height
    ensures (y * width + x) / width == y && (y * width + x) % width == x
  {
    assert y * width <= (height - 1) * width by {
      MulLeq(y, height - 1, width);
    }
    assert (height - 1) * width == width * height - width;
    RowColumn(y * width + x, y, x, width);
  }

  lemma MulLeq(a: int, b: int, c: int)
    requires a <= b && c >= 0
    ensures a * c <= b * c
  {
    assert b * c - a * c == (b - a) * c;
  }

  /** Division by the row width recovers the row and the column. */
  lemma RowColumn(p: int, y: int, x: int, width: int)
    requires 0 <= x < width && p == y * width + x
    ensures p / width == y && p % width == x
  {
    var q, m := p / width, p % width;
    assert p == q * width + m;
    assert (q - y) * width == x - m;
    if q > y {
      MulLeq(1, q - y, width);
    } else if q < y {
      MulLeq(1, y - q, width);
    }
  }

  /** Blending pixel q of a buffer whose pixels first..q-1 are already blended extends the blended span by one pixel. */
  lemma SpanExtend(buf: seq<Byte>, cur: seq<Byte>, first: int, q: int, p: int,
                    r: int, g: int, b: int, mix: (int, Byte) -> Byte)
    requires first <= q && p == q * 3 && 0 <= p && p + 2 < |buf|
    requires cur == Span(buf, first, q - 1, r, g, b, mix)
    ensures cur[p := mix(r, cur[p])][p + 1 := mix(g, cur[p + 1])][p + 2 := mix(b, cur[p + 2])] == Span(buf, first, q, r, g, b, mix)
  {
    var next := cur[p := mix(r, cur[p])][p + 1 := mix(g, cur[p + 1])][p + 2 := mix(b, cur[p + 2])];
    assert p % 3 == 0 && (p + 1) % 3 == 1 && (p + 2) % 3 == 2;
    forall i | 0 <= i < |buf|
      ensures next[i] == Span(buf, first, q, r, g, b, mix)[i]
    {
      if i == p {
        assert Channel(r, g, b, i) == r;
      } else if i == p + 1 {
        assert Channel(r, g, b, i) == g;
      } else if i == p + 2 {
        assert Channel(r, g, b, i) == b;
      }
    }
  }

  /** An empty span leaves the buffer as it is. */
  lemma SpanEmpty(buf: seq<Byte>, first: int, r: int, g: int, b: int, mix: (int, Byte) -> Byte)
    ensures Span(buf, first, first - 1, r, g, b, mix) == buf
  {
  }

  /**
   * setPixelWithAlpha: a pixel on the canvas has its three bytes blended
   * with r, g and b; a pixel off the canvas changes nothing.
   */
  method SetPixelWithAlpha(fb: array<Byte>, x: int, y: int, width: int, height: int,
                           r: int, g: int, b: int, mix: (int, Byte) -> Byte)
    requires fb.Length == width * height * 3
    modifies fb
    ensures !(0 <= x < width && 0 <= y < height) ==> fb[..] == old(fb[..])
    ensures 0 <= x < width && 0 <= y < height ==>
      fb[..] == Span(old(fb[..]), y * width + x, y * width + x, r, g, b, mix)
  {
    if x < 0 || x >= width || y < 0 || y >= height {
      return;
    }
    PixelNumber(x, y, width, height);
    ghost var q := y * width + x;
    var p := y * width * 3 + x * 3;
    assert p == q * 3;
    ghost var before := fb[..];
    SpanEmpty(before, q, r, g, b, mix);
    SpanExtend(before, before, q, q, p, r, g, b, mix);
    fb[p] := mix(r, fb[p]);
    fb[p + 1] := mix(g, fb[p + 1]);
    fb[p + 2] := mix(b, fb[p + 2]);
    assert fb[..] == before[p := mix(r, before[p])][p + 1 := mix(g, before[p + 1])][p + 2 := mix(b, before[p + 2])];
  }

  /**
   * drawHline: on a row of the canvas, blend every pixel from the smaller
   * to the larger x; a row off the canvas changes nothing. The x range is
   * not checked against the canvas: the caller must keep it inside the
   * buffer, and pixels beyond the right edge land on the next row.
   */
  method DrawHline(fb: array<Byte>, width: int, height: int, x1: int, x2: int, y: int,
                   r: int, g: int, b: int, mix: (int, Byte) -> Byte)
    requires fb.Length == width * height * 3
    requires 0 <= y < height ==> 0 <= y * width + Min(x1, x2) && y * width + Max(x1, x2) < width * height
    modifies fb
    ensures !(0 <= y < height) ==> fb[..] == old(fb[..])
    ensures 0 <= y < height ==> fb[..] == Span(old(fb[..]), y * width + Min(x1, x2), y * width + Max(x1, x2), r, g, b, mix)
  {
    if y < 0 || y >= height {
      return;
    }
    var lo, hi := x1, x2;
    if lo > hi {
      lo, hi := hi, lo;
    }
    ghost var row := y * width;
    ghost var before := fb[..];
    var p := y * width * 3 + lo * 3;
    var x := lo;
    SpanEmpty(before, row + lo, r, g, b, mix);
    while x <= hi
      invariant lo <= x <= hi + 1
      invariant p == (row + x) * 3
      invariant fb[..] == Span(before, row + lo, row + x - 1, r, g, b, mix)
    {
      ghost var cur := fb[..];
      SpanExtend(before, cur, row + lo, row + x, p, r, g, b, mix);
      fb[p] := mix(r, fb[p]);
      fb[p + 1] := mix(g, fb[p + 1]);
      fb[p + 2] := mix(b, fb[p + 2]);
      assert fb[..] == cur[p := mix(r, cur[p])][p + 1 := mix(g, cur[p + 1])][p + 2 := mix(b, cur[p + 2])];
      assert fb[..] == Span(before, row + lo, row + x, r, g, b, mix);
      p := p + 3;
      x := x + 1;
    }
  }

  function Max(a: int, b: int): int {
    if a >= b then a else b
  }

  /** A line inside the canvas blends exactly the pixels of its row between its two ends, each with its own channel. */
  lemma HlineInsideRow(buf: seq<Byte>, width: int, height: int, lo: int, hi: int, y: int,
                       r: int, g: int, b: int, mix: (int, Byte) -> Byte, i: int)
    requires |buf| == width * height * 3 && 0 <= y < height && 0 <= lo <= hi < width && 0 <= i < |buf|
    ensures var out := Span(buf, y * width + lo, y * width + hi, r, g, b, mix);
      out[i] == if (i / 3) / width == y && lo <= (i / 3) % width <= hi then mix(Channel(r, g, b, i), buf[i]) else buf[i]
  {
    var p := i / 3;
    assert (y * width + lo) * 3 <= i < (y * width + hi + 1) * 3 <==> y * width + lo <= p <= y * width + hi;
    InRowRange(p, y, width, lo, hi);
  }

  /** A pixel number lies between two pixels of row y exactly when its row is y and its column between theirs. */
  lemma InRowRange(p: int, y: int, width: int, lo: int, hi: int)
    requires 0 <= lo <= hi < width
    ensures y * width + lo <= p <= y * width + hi <==> p / width == y && lo <= p % width <= hi
  {
    var row, col := p / width, p % width;
    assert p == row * width + col;
    if row == y {
    } else if row < y {
      MulLeq(row + 1, y, width);
      assert (row + 1) * width == row * width + width;
    } else {
      MulLeq(y + 1, row, width);
      assert (y + 1) * width == y * width + width;
    }
  }

  /** With no bounds check on x, a line running past the right edge blends the first pixel of the next row. */
  lemma HlineSpillsIntoNextRow()
    ensures var buf := seq(12, i => 0);
      var out := Span(buf, 0 * 2 + Min(0, 2), 0 * 2 + Max(0, 2), 255, 255, 255, (c: int, prev: Byte) => 255);
      out[6] == 255 && (6 / 3) / 2 == 1 && (6 / 3) % 2 == 0
  {
  }

  // ----- drawtriangles ---------------------------------------------------

  /** The buffer after one shape is drawn; byte i of the result is paint(shape, buf, i) for the shape's kind. */
  function PaintOne(s: Shape, buf: seq<Byte>, paintTriangle: (Shape, seq<Byte>, nat) -> Byte,
                    paintCircle: (Shape, seq<Byte>, nat) -> Byte): (out: seq<Byte>)
    ensures |out| == |buf|
  {
    seq(|buf|, i requires 0 <= i < |buf| =>
      if s.geom.Triangle? then paintTriangle(s, buf, i) else paintCircle(s, buf, i))
  }

  /** The buffer after the shapes are drawn one after the other, the last one on top. */
  function Painted(shapes: seq<Shape>, buf: seq<Byte>, paintTriangle: (Shape, seq<Byte>, nat) -> Byte,
                   paintCircle: (Shape, seq<Byte>, nat) -> Byte): (out: seq<Byte>)
    ensures |out| == |buf|
  {
    if |shapes| == 0 then buf
    else PaintOne(shapes[|shapes| - 1], Painted(shapes[..|shapes| - 1], buf, paintTriangle, paintCircle),
                  paintTriangle, paintCircle)
  }

  /** Painter's order: drawing a + b is drawing b over the drawing of a. */
  lemma {:induction false} PaintedAppend(a: seq<Shape>, b: seq<Shape>, buf: seq<Byte>,
                                         paintTriangle: (Shape, seq<Byte>, nat) -> Byte,
                                         paintCircle: (Shape, seq<Byte>, nat) -> Byte)
    ensures Painted(a + b, buf, paintTriangle, paintCircle) ==
            Painted(b, Painted(a, buf, paintTriangle, paintCircle), paintTriangle, paintCircle)
    decreases |b|
  {
    if |b| == 0 {
      assert a + b == a;
    } else {
      var b' := b[..|b| - 1];
      assert (a + b)[..|a + b| - 1] == a + b';
      PaintedAppend(a, b', buf, paintTriangle, paintCircle);
    }
  }

  /**
   * drawtriangles: draw the shapes in use, in slot order, each with the
   * painter of its kind; slots past inuse are not drawn.
   */
  method DrawShapes(fb: array<Byte>, solution: ShapeSet, paintTriangle: (Shape, seq<Byte>, nat) -> Byte,
                    paintCircle: (Shape, seq<Byte>, nat) -> Byte)
    requires 0 <= solution.inuse <= solution.shapes.Length
    modifies fb
    ensures fb[..] == Painted(solution.shapes[..solution.inuse], old(fb[..]), paintTriangle, paintCircle)
  {
    ghost var before := fb[..];
    ghost var active := solution.shapes[..solution.inuse];
    for j := 0 to solution.inuse
      invariant solution.shapes[..solution.inuse] == active
      invariant fb[..] == Painted(active[..j], before, paintTriangle, paintCircle)
    {
      var next := PaintOne(solution.shapes[j], fb[..], paintTriangle, paintCircle);
      assert active[..j + 1][..j] == active[..j];
      assert next == Painted(active[..j + 1], before, paintTriangle, paintCircle);
      forall i | 0 <= i < fb.Length {
        fb[i] := next[i];
      }
      assert fb[..] == next;
    }
    assert active[..solution.inuse] == active;
  }
}
