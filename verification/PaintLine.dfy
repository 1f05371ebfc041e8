/** apps/paint.c: the brush and Bresenham's line. */
module PaintLine {
  import opened Arithmetic
  import opened Bytes
  import opened PaintFill

  datatype Point = Point(x: int, y: int)

  function Abs(a: int): (r: int)
    ensures r >= 0 && (r == a || r == -a)
  {
    if a < 0 then -a else a
  }

  /** A pixel under the square brush centred at `c`. */
  predicate Covered(p: int, c: Point, brush: nat) {
    Distance(X(p), c.x) <= brush / 2 && Distance(Y(p), c.y) <= brush / 2
  }

  lemma PixelPlace(x: int, y: int)
    requires 0 <= x < WIDTH
    ensures X(y * WIDTH + x) == x && Y(y * WIDTH + x) == y
  {
    DivModUnique(y * WIDTH + x, WIDTH, y, x);
  }

  /** Rows above `j`, and in row `j` the columns before `i`, are inked where the brush covers them. */
  ghost predicate Inked(before: seq<Byte>, now: seq<Byte>, c: Point, brush: nat, ink: Byte, j: int, i: int) {
    && |before| == |now| == PIXELS
    && forall p :: 0 <= p < PIXELS ==>
         now[p] == if Covered(p, c, brush) && (Y(p) < j || (Y(p) == j && X(p) < i)) then ink else before[p]
  }

  lemma InkNext(before: seq<Byte>, now: seq<Byte>, c: Point, brush: nat, ink: Byte, j: int, i: int)
    requires Inked(before, now, c, brush, ink, j, i)
    requires Distance(j, c.y) <= brush / 2 && Distance(i, c.x) <= brush / 2
    ensures if 0 <= i < WIDTH && 0 <= j < HEIGHT
            then Inked(before, now[j * WIDTH + i := ink], c, brush, ink, j, i + 1)
            else Inked(before, now, c, brush, ink, j, i + 1)
  {
    if 0 <= i < WIDTH {
      PixelPlace(i, j);
    }
  }

  lemma InkRow(before: seq<Byte>, now: seq<Byte>, c: Point, brush: nat, ink: Byte, j: int)
    requires Inked(before, now, c, brush, ink, j, c.x + brush / 2 + 1)
    ensures Inked(before, now, c, brush, ink, j + 1, c.x - brush / 2)
  {
  }

  /** dot(): the pixels under the brush, and no other, take the ink. */
  method Dot(pixels: array<Byte>, c: Point, ink: Byte, brush: nat)
    requires pixels.Length == PIXELS
    modifies pixels
    ensures forall p :: 0 <= p < PIXELS ==> pixels[p] == if Covered(p, c, brush) then ink else old(pixels[p])
  {
    ghost var before := pixels[..];
    var j := c.y - brush / 2;
    while j <= c.y + brush / 2
      invariant j <= c.y + brush / 2 + 1 && Inked(before, pixels[..], c, brush, ink, j, c.x - brush / 2)
    {
      var i := c.x - brush / 2;
      while i <= c.x + brush / 2
        invariant i <= c.x + brush / 2 + 1 && Inked(before, pixels[..], c, brush, ink, j, i)
      {
        InkNext(before, pixels[..], c, brush, ink, j, i);
        if i >= 0 && i < WIDTH && j >= 0 && j < HEIGHT {
          pixels[j * WIDTH + i] := ink;
        }
        i := i + 1;
      }
      InkRow(before, pixels[..], c, brush, ink, j);
      j := j + 1;
    }
  }

  // ------------------------------------------------------------ the line

  /** From `a` to `b`: the extents along both axes and the directions of travel. */
  datatype Run = Run(a: Point, b: Point) {
    function W(): int { Abs(b.x - a.x) }

    function H(): int { Abs(b.y - a.y) }

    function SX(): int { if a.x < b.x then 1 else -1 }

    function SY(): int { if a.y < b.y then 1 else -1 }

    /** The point `kx` steps along x and `ky` steps along y. */
    function At(kx: int, ky: int): Point {
      Point(a.x + SX() * kx, a.y + SY() * ky)
    }

    function Length(): nat {
      if W() > H() then W() else H()
    }

    /** How far the walk is above the ideal line, times the major extent. */
    function Deviation(kx: int, ky: int): int {
      ky * W() - kx * H()
    }

    /** After `kx` and `ky` steps the walk is within half a pixel of the ideal line, measured
        along the minor axis, and has gone a whole step along the major axis each time. */
    predicate Near(k: nat, kx: int, ky: int) {
      && 0 <= kx <= W() && 0 <= ky <= H() && k <= Length()
      && if W() >= H() then kx == k && -W() <= 2 * Deviation(kx, ky) <= W()
         else ky == k && -H() <= 2 * Deviation(kx, ky) <= H()
    }
  }

  /** One turn of the loop keeps the walk near the line and overshoots neither axis. */
  lemma StepNear(r: Run, k: nat, kx: int, ky: int, error: int, kx1: int, ky1: int)
    requires r.Near(k, kx, ky) && k < r.Length()
    requires error == r.Deviation(kx, ky) + r.W() - r.H()
    requires kx1 == if 2 * error >= -r.H() then kx + 1 else kx
    requires ky1 == if 2 * error <= r.W() then ky + 1 else ky
    ensures r.Near(k + 1, kx1, ky1)
    ensures r.Deviation(kx1, ky1) == r.Deviation(kx, ky) - (if kx1 == kx then 0 else r.H()) + (if ky1 == ky then 0 else r.W())
  {
    var w, h := r.W(), r.H();
    assert (ky + 1) * w == ky * w + w && (kx + 1) * h == kx * h + h;
    var d := r.Deviation(kx1, ky1);
    assert d == r.Deviation(kx, ky) - (if kx1 == kx then 0 else h) + (if ky1 == ky then 0 else w);
    if w >= h {
      assert kx1 == k + 1 && -w <= 2 * d <= w;
      NoOvershoot(w, h, kx1, ky1);
    } else {
      assert ky1 == k + 1 && -h <= 2 * d <= h;
      NoOvershoot(h, w, ky1, kx1);
    }
  }

  /** A step past the minor extent is more than half a pixel off. */
  lemma Overshoots(major: int, minor: int, k: int, m: int)
    requires 0 < major && 0 <= k <= major && 0 <= minor < m
    ensures 2 * (m * major - k * minor) > major
  {
    Monotone(minor + 1, m, major);
    Monotone(k, major, minor);
    assert (minor + 1) * major == major * minor + major;
  }

  /** Being within half a pixel keeps the minor axis within its extent. */
  lemma NoOvershoot(major: int, minor: int, k: int, m: int)
    requires 0 < major && 0 <= k <= major && 0 <= minor && 2 * (m * major - k * minor) <= major
    ensures m <= minor
  {
    if m > minor {
      Overshoots(major, minor, k, m);
    }
  }

  lemma Monotone(a: int, b: int, c: nat)
    requires a <= b
    ensures a * c <= b * c
  {
    ProductNonNegative(b - a, c);
    assert (b - a) * c == b * c - a * c;
  }

  /** After as many steps as the longer extent, the walk is at the end point, and not before. */
  lemma EndExactly(r: Run, k: nat, kx: int, ky: int)
    requires r.Near(k, kx, ky)
    ensures k == r.Length() <==> r.At(kx, ky) == r.b
    ensures k == r.Length() ==> kx == r.W() && ky == r.H()
  {
    var w, h := r.W(), r.H();
    if k == r.Length() {
      if w >= h {
        assert r.Deviation(kx, ky) == w * (ky - h);
        if ky != h {
          MultipleIsFar(w, ky - h);
        }
      } else {
        assert r.Deviation(kx, ky) == h * (w - kx);
        if kx != w {
          MultipleIsFar(h, w - kx);
        }
      }
    }
  }

  /** A pixel under the brush at some centre. */
  ghost predicate Touched(p: int, centres: seq<Point>, brush: nat) {
    exists k :: 0 <= k < |centres| && Covered(p, centres[k], brush)
  }

  /** The k-th centre of the line is near the ideal line. */
  ghost predicate OnLine(r: Run, k: nat, c: Point) {
    exists kx, ky :: r.Near(k, kx, ky) && c == r.At(kx, ky)
  }

  /** The canvas after dots at `centres`. */
  ghost predicate Drawn(before: seq<Byte>, now: seq<Byte>, centres: seq<Point>, brush: nat, ink: Byte) {
    && |before| == |now| == PIXELS
    && forall p :: 0 <= p < PIXELS ==> now[p] == if Touched(p, centres, brush) then ink else before[p]
  }

  lemma DrawMore(before: seq<Byte>, now: seq<Byte>, next: seq<Byte>, centres: seq<Point>, c: Point, brush: nat, ink: Byte)
    requires Drawn(before, now, centres, brush, ink) && |next| == PIXELS
    requires forall p :: 0 <= p < PIXELS ==> next[p] == if Covered(p, c, brush) then ink else now[p]
    ensures Drawn(before, next, centres + [c], brush, ink)
  {
    hide Touched, Covered;
    forall p | 0 <= p < PIXELS ensures next[p] == if Touched(p, centres + [c], brush) then ink else before[p] {
      TouchMore(centres, c, brush, p);
    }
  }

  lemma TouchMore(centres: seq<Point>, c: Point, brush: nat, p: int)
    ensures Touched(p, centres + [c], brush) <==> Touched(p, centres, brush) || Covered(p, c, brush)
  {
    if Touched(p, centres, brush) {
      var k :| 0 <= k < |centres| && Covered(p, centres[k], brush);
      assert (centres + [c])[k] == centres[k];
    }
    assert (centres + [c])[|centres|] == c;
  }

  /** line(): from one end to the other in max(|dx|, |dy|) + 1 dots, each within half a pixel
      of the ideal line. */
  method Line(pixels: array<Byte>, a: Point, b: Point, ink: Byte, brush: nat) returns (ghost centres: seq<Point>)
    requires pixels.Length == PIXELS
    modifies pixels
    ensures |centres| == Run(a, b).Length() + 1
    ensures centres[0] == a && centres[|centres| - 1] == b
    ensures forall k :: 0 <= k < |centres| ==> OnLine(Run(a, b), k, centres[k])
    ensures Drawn(old(pixels[..]), pixels[..], centres, brush, ink)
  {
    hide Drawn, Touched, Covered, Run.Near, OnLine, Run.Deviation, Run.At, Run.Length, Run.W, Run.H, Run.SX, Run.SY, Abs;
    ghost var r, k, kx, ky, before := Run(a, b), 0, 0, 0, pixels[..];
    var x, y := a.x, a.y;
    var dx, dy := Abs(b.x - x), -Abs(b.y - y);
    var sx, sy := if x < b.x then 1 else -1, if y < b.y then 1 else -1;
    var error := dx + dy;
    centres := [];
    StartNear(r);
    Axes(r);
    NothingDrawn(before, brush, ink);
    while true
      invariant dx == r.W() && dy == -r.H() && sx == r.SX() && sy == r.SY()
      invariant r.Near(k, kx, ky) && Point(x, y) == r.At(kx, ky) && k <= r.Length() && r.b == b
      invariant error == r.Deviation(kx, ky) + r.W() - r.H()
      invariant |centres| == k && (k > 0 ==> centres[0] == a)
      invariant forall i :: 0 <= i < k ==> OnLine(r, i, centres[i])
      invariant Drawn(before, pixels[..], centres, brush, ink)
      invariant k == 0 ==> x == a.x && y == a.y
      decreases r.Length() - k
    {
      ghost var now := pixels[..];
      Dot(pixels, Point(x, y), ink, brush);
      DrawMore(before, now, pixels[..], centres, Point(x, y), brush, ink);
      OnLineIntro(r, k, kx, ky);
      centres := centres + [Point(x, y)];
      EndExactly(r, k, kx, ky);
      if x == b.x && y == b.y {
        break;
      }
      NotYet(r, k, kx, ky);
      StepAt(r, kx, ky);
      StepNear(r, k, kx, ky, error, if 2 * error >= dy then kx + 1 else kx, if 2 * error <= dx then ky + 1 else ky);
      var twice := 2 * error;
      if twice >= dy {
        error, x := error + dy, x + sx;
        kx := kx + 1;
      }
      if twice <= dx {
        error, y := error + dx, y + sy;
        ky := ky + 1;
      }
      k := k + 1;
    }
  }

  lemma Axes(r: Run)
    ensures r.W() == Abs(r.b.x - r.a.x) && r.H() == Abs(r.b.y - r.a.y)
    ensures r.SX() == (if r.a.x < r.b.x then 1 else -1) && r.SY() == (if r.a.y < r.b.y then 1 else -1)
  {
  }

  lemma StepAt(r: Run, kx: int, ky: int)
    ensures r.At(kx + 1, ky) == Point(r.At(kx, ky).x + r.SX(), r.At(kx, ky).y)
    ensures r.At(kx, ky + 1) == Point(r.At(kx, ky).x, r.At(kx, ky).y + r.SY())
    ensures r.At(kx + 1, ky + 1) == Point(r.At(kx, ky).x + r.SX(), r.At(kx, ky).y + r.SY())
  {
  }

  lemma StartNear(r: Run)
    ensures r.Near(0, 0, 0) && r.At(0, 0) == r.a && r.Deviation(0, 0) == 0
  {
  }

  lemma NothingDrawn(px: seq<Byte>, brush: nat, ink: Byte)
    requires |px| == PIXELS
    ensures Drawn(px, px, [], brush, ink)
  {
  }

  lemma OnLineIntro(r: Run, k: nat, kx: int, ky: int)
    requires r.Near(k, kx, ky)
    ensures OnLine(r, k, r.At(kx, ky))
  {
  }

  lemma NotYet(r: Run, k: nat, kx: int, ky: int)
    requires r.Near(k, kx, ky) && r.At(kx, ky) != r.b
    ensures k < r.Length()
  {
    EndExactly(r, k, kx, ky);
  }
}
