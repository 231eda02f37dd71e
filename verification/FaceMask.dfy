/**
 The soft elliptical face mask.  Coordinates and weights are exact reals; the square root is a parameter.
 The work and mask rectangles are proved to cover the whole ellipse, so that what the loops leave out is
 exactly what the mask leaves unchanged.
 */
module FaceMask {
  import opened BoxBlur
  import opened Bytes
  import opened Pixels

  datatype Rect = Rect(minX: int, minY: int, maxX: int, maxY: int) {
    function Dx(): int { maxX - minX }

    function Dy(): int { maxY - minY }

    predicate Empty() { minX >= maxX || minY >= maxY }

    predicate Contains(x: int, y: int) { minX <= x < maxX && minY <= y < maxY }

    /** The common part; the zero rectangle when there is none. */
    function Intersect(s: Rect): (r: Rect)
      ensures forall x, y :: r.Contains(x, y) <==> Contains(x, y) && s.Contains(x, y)
      ensures !r.Empty() ==> r == Rect(Max(minX, s.minX), Max(minY, s.minY), Min(maxX, s.maxX), Min(maxY, s.maxY))
    {
      var r := Rect(Max(minX, s.minX), Max(minY, s.minY), Min(maxX, s.maxX), Min(maxY, s.maxY));
      if Empty() || s.Empty() || r.Empty() then Rect(0, 0, 0, 0) else r
    }

    function Add(x: int, y: int): Rect { Rect(minX + x, minY + y, maxX + x, maxY + y) }
  }

  function Max(a: int, b: int): int { if a > b then a else b }

  function Min(a: int, b: int): int { if a < b then a else b }

  function MaxReal(a: real, b: real): real { if a > b then a else b }

  const SOLID: real := 0.8
  const FADE: real := 1.3

  /** Division of integers that truncates toward zero; the operands here are never negative. */
  function Fifth(n: nat): nat { n / 5 }

  // ---------- The ellipse of a face ----------

  datatype Ellipse = Ellipse(centerX: real, centerY: real, radiusX: real, radiusY: real)

  function EllipseOf(face: Rect): (e: Ellipse)
    ensures e.radiusX >= 1.0 && e.radiusY >= 1.0
  {
    Ellipse((face.minX + face.maxX - 1) as real / 2.0, (face.minY + face.maxY - 1) as real / 2.0,
            MaxReal(1.0, face.Dx() as real / 2.0), MaxReal(1.0, face.Dy() as real / 2.0))
  }

  /** The square of a point's distance from the centre, in the ellipse's own radius. */
  function Distance2(e: Ellipse, x: int, y: int): (d: real)
    requires e.radiusX >= 1.0 && e.radiusY >= 1.0
    ensures d >= 0.0
  {
    var dx := (x as real - e.centerX) / e.radiusX;
    var dy := (y as real - e.centerY) / e.radiusY;
    SquareNonnegative(dx);
    SquareNonnegative(dy);
    dx * dx + dy * dy
  }

  lemma SquareNonnegative(a: real)
    ensures a * a >= 0.0
  {
  }

  /** The point is nearer than `bound` radii. */
  predicate Inside(face: Rect, x: int, y: int, bound: real) {
    Distance2(EllipseOf(face), x, y) < bound * bound
  }

  lemma StrictSquare(a: real, b: real)
    requires 0.0 <= a < b
    ensures a * a < b * b
  {
    PositiveProduct(b - a, b + a);
    DifferenceOfSquares(a, b);
  }

  lemma DifferenceOfSquares(a: real, b: real)
    ensures (b - a) * (b + a) == b * b - a * a
  {
  }

  lemma SquareOrder(a: real, b: real)
    requires a >= 0.0 && b >= 0.0
    ensures a * a < b * b <==> a < b
    ensures a * a == b * b <==> a == b
  {
    if a < b {
      StrictSquare(a, b);
    }
    if b < a {
      StrictSquare(b, a);
    }
  }

  /** A point inside the ellipse is within the scaled radius of the centre along each axis. */
  lemma AxisBound(center: real, radius: real, x: int, other: real, bound: real)
    requires radius >= 1.0 && bound > 0.0 && other >= 0.0
    requires var d := (x as real - center) / radius; d * d + other < bound * bound
    ensures center - radius * bound < x as real < center + radius * bound
  {
    var d := (x as real - center) / radius;
    var m := if d < 0.0 then -d else d;
    assert m * m == d * d;
    SquareOrder(m, bound);
    assert d * radius == x as real - center;
    ScaledOrder(d, bound, radius);
    ScaledOrder(-bound, d, radius);
  }

  lemma ScaledOrder(a: real, b: real, radius: real)
    requires a < b && radius > 0.0
    ensures a * radius < b * radius
  {
  }

  // ---------- The rectangles cover the ellipse ----------

  /** How far the fading band reaches beyond a side of `n` pixels: n / 2 * (FADE - 1), truncated, and one more. */
  function Band(n: nat): nat { n * 3 / 20 + 1 }

  function Radius(face: Rect, minimumRadius: int): int
    requires !face.Empty()
  {
    Max(minimumRadius, Fifth(Min(face.Dx(), face.Dy())))
  }

  /** The radius is a fifth of the shorter side, rounded down, and never less than the minimum. */
  lemma RadiusMeaning(face: Rect, minimumRadius: int)
    requires !face.Empty()
    ensures var r, side := Radius(face, minimumRadius), Min(face.maxX - face.minX, face.maxY - face.minY);
            && minimumRadius <= r && side < 5 * r + 5 && (r == minimumRadius || 5 * r <= side)
  {
  }

  /** The part of the image that is blurred for one face. */
  function WorkArea(face: Rect, minimumRadius: int, bounds: Rect): Rect
    requires !face.Empty()
  {
    var bandX, bandY, radius := Band(face.Dx()), Band(face.Dy()), Radius(face, minimumRadius);
    Rect(face.minX - bandX - radius, face.minY - bandY - radius,
         face.maxX + bandX + radius, face.maxY + bandY + radius).Intersect(bounds)
  }

  function Ceil(r: real): int { -(-r).Floor }

  /** The rectangle around the outer edge of the mask. */
  function OuterBox(face: Rect): Rect {
    var e := EllipseOf(face);
    Rect((e.centerX - e.radiusX * FADE).Floor, (e.centerY - e.radiusY * FADE).Floor,
         Ceil(e.centerX + e.radiusX * FADE) + 1, Ceil(e.centerY + e.radiusY * FADE) + 1)
  }

  /** Along one axis, every point of the ellipse is in the face extended by its band. */
  lemma BandCovers(min: int, max: int, x: int)
    requires min < max
    requires var center := (min + max - 1) as real / 2.0;
             var radius := MaxReal(1.0, (max - min) as real / 2.0);
             center - radius * FADE < x as real < center + radius * FADE
    ensures min - Band(max - min) <= x < max + Band(max - min)
  {
    var n := max - min;
    var b := n * 3 / 20;
    assert n as real / 2.0 * 0.3 < b as real + 1.0 by {
      assert 3 * n < 20 * (b + 1);
      assert 3.0 * n as real < 20.0 * (b as real + 1.0);
    }
    if n == 1 {
      assert (min + max - 1) as real / 2.0 == min as real;
      assert min as real - 1.3 < x as real < min as real + 1.3;
    } else {
      var half := n as real / 2.0;
      assert (min + max - 1) as real / 2.0 == min as real + half - 0.5;
      assert MaxReal(1.0, half) == half;
      assert x as real < max as real + b as real + 0.5;
      assert x as real > min as real - b as real - 1.5;
    }
  }

  /** Every image point inside the outer ellipse is in both rectangles, whatever the radius. */
  lemma RectanglesCoverEllipse(face: Rect, minimumRadius: int, bounds: Rect, x: int, y: int)
    requires !face.Empty() && bounds.Contains(x, y) && Inside(face, x, y, FADE)
    ensures OuterBox(face).Contains(x, y)
    ensures WorkArea(face, minimumRadius, bounds).Contains(x, y)
  {
    WithinAxes(face, x, y);
    BandCovers(face.minX, face.maxX, x);
    BandCovers(face.minY, face.maxY, y);
  }

  /** A point inside the outer ellipse is within its reach along each axis. */
  lemma WithinAxes(face: Rect, x: int, y: int)
    requires !face.Empty() && Inside(face, x, y, FADE)
    ensures var e := EllipseOf(face);
            && e.centerX - e.radiusX * FADE < x as real < e.centerX + e.radiusX * FADE
            && e.centerY - e.radiusY * FADE < y as real < e.centerY + e.radiusY * FADE
  {
    var e := EllipseOf(face);
    var dx := (x as real - e.centerX) / e.radiusX;
    var dy := (y as real - e.centerY) / e.radiusY;
    SquareNonnegative(dx);
    SquareNonnegative(dy);
    AxisBound(e.centerX, e.radiusX, x, dy * dy, FADE);
    AxisBound(e.centerY, e.radiusY, y, dx * dx, FADE);
  }

  /**
   Room around the band: the blur window of a masked point, cut off at the image border, lies in the work
   area, so the first pass averages real neighbours and never the edge of the crop.
   */
  lemma WindowInWorkArea(face: Rect, minimumRadius: int, bounds: Rect, x: int, y: int, u: int, v: int)
    requires !face.Empty() && bounds.Contains(x, y) && Inside(face, x, y, FADE)
    requires var r := Radius(face, minimumRadius);
             bounds.Contains(u, v) && x - r <= u <= x + r && y - r <= v <= y + r
    ensures WorkArea(face, minimumRadius, bounds).Contains(u, v)
  {
    var e := EllipseOf(face);
    var dx := (x as real - e.centerX) / e.radiusX;
    var dy := (y as real - e.centerY) / e.radiusY;
    SquareNonnegative(dx);
    SquareNonnegative(dy);
    AxisBound(e.centerX, e.radiusX, x, dy * dy, FADE);
    AxisBound(e.centerY, e.radiusY, y, dx * dx, FADE);
    BandCovers(face.minX, face.maxX, x);
    BandCovers(face.minY, face.maxY, y);
  }

  // ---------- Weights and blending ----------

  ghost predicate IsSqrt(sqrt: real -> real) {
    forall s: real :: s >= 0.0 ==> sqrt(s) >= 0.0 && sqrt(s) * sqrt(s) == s
  }

  /** The distance of a point from the centre of a face, in the ellipse's own radius. */
  type Distance = (Rect, int, int) -> real

  /** The distance is what `sqrt` makes of the squared distance. */
  ghost predicate Computes(sqrt: real -> real, distance: Distance) {
    forall face, x, y {:trigger Distance2(EllipseOf(face), x, y)} ::
      distance(face, x, y) == sqrt(Distance2(EllipseOf(face), x, y))
  }

  lemma DistanceIsInside(sqrt: real -> real, distance: Distance, face: Rect, x: int, y: int)
    requires IsSqrt(sqrt) && Computes(sqrt, distance)
    ensures distance(face, x, y) >= 0.0
    ensures distance(face, x, y) < FADE <==> Inside(face, x, y, FADE)
    ensures distance(face, x, y) <= SOLID <==> Distance2(EllipseOf(face), x, y) <= SOLID * SOLID
  {
    var d := sqrt(Distance2(EllipseOf(face), x, y));
    SquareOrder(d, FADE);
    SquareOrder(d, SOLID);
  }

  /** How much of the blur a point takes: all in the solid part, none at the fade, a smooth step between. */
  function Weight(distance: real): real {
    if distance <= SOLID then 1.0
    else if distance >= FADE then 0.0
    else Step((FADE - distance) / (FADE - SOLID))
  }

  function Step(t: real): real { t * t * (3.0 - 2.0 * t) }

  lemma StepIsMonotone(a: real, b: real)
    requires 0.0 <= a < b <= 1.0
    ensures Step(a) < Step(b)
  {
    var p, q := 3.0 - 2.0 * a - b, 3.0 - 2.0 * b - a;
    NonnegativeProduct(a, p);
    PositiveProduct(b, q);
    PositiveProduct(b - a, a * p + b * q);
    StepDifference(a, b, p, q);
  }

  /** Both brackets are positive for different numbers up to 1. */
  lemma StepDifference(a: real, b: real, p: real, q: real)
    requires p == 3.0 - 2.0 * a - b && q == 3.0 - 2.0 * b - a
    ensures Step(b) - Step(a) == (b - a) * (a * p + b * q)
  {
  }

  lemma NonnegativeProduct(a: real, b: real)
    requires a >= 0.0 && b >= 0.0
    ensures a * b >= 0.0
  {
  }

  lemma PositiveProduct(a: real, b: real)
    requires a > 0.0 && b > 0.0
    ensures a * b > 0.0
  {
  }

  /** The weight falls strictly from 1 at the solid edge to 0 at the fade, and never leaves that range. */
  lemma WeightFalls(near: real, far: real)
    requires near < far
    ensures 0.0 <= Weight(far) <= Weight(near) <= 1.0
    ensures SOLID <= near && far <= FADE ==> Weight(far) < Weight(near)
  {
    assert Step(0.0) == 0.0 && Step(1.0) == 1.0;
    WeightInUnit(near);
    WeightInUnit(far);
    if SOLID <= near && far <= FADE {
      var a, b := (FADE - far) / (FADE - SOLID), (FADE - near) / (FADE - SOLID);
      assert 0.0 <= a < b <= 1.0;
      StepIsMonotone(a, b);
      assert Weight(far) == Step(a) && Weight(near) == Step(b);
    } else if SOLID < far < FADE {
      assert near < SOLID;
    } else if SOLID < near < FADE {
      assert far > FADE;
    }
  }

  /** Strictly between the edges the weight is strictly between 0 and 1. */
  lemma WeightInUnit(distance: real)
    ensures 0.0 <= Weight(distance) <= 1.0
    ensures Weight(distance) == 1.0 <==> distance <= SOLID
    ensures Weight(distance) == 0.0 <==> distance >= FADE
  {
    if SOLID < distance < FADE {
      var t := (FADE - distance) / (FADE - SOLID);
      assert 0.0 < t < 1.0;
      assert Step(0.0) == 0.0 && Step(1.0) == 1.0;
      StepIsMonotone(0.0, t);
      StepIsMonotone(t, 1.0);
      assert Weight(distance) == Step(t);
    }
  }

  /** Nearest integer of a value that is not negative; a half rounds up. */
  function Round(value: real): int { (value + 0.5).Floor }

  function Clamped(value: real): real {
    if value < 0.0 then 0.0 else if value > 255.0 then 255.0 else value
  }

  function Mix(under: real, over: real, weight: real): real { under * (1.0 - weight) + over * weight }

  function BlendChannel(under: Byte, over: Byte, weight: real): Byte {
    Round(Clamped(Mix(under as int as real, over as int as real, weight))) as Byte
  }

  /** A blend lies between its two ends. */
  lemma BlendBetween(under: Byte, over: Byte, weight: real)
    requires 0.0 <= weight <= 1.0
    ensures under <= over ==> under <= BlendChannel(under, over, weight) <= over
    ensures over <= under ==> over <= BlendChannel(under, over, weight) <= under
  {
    var u, o := under as int as real, over as int as real;
    var value := Mix(u, o, weight);
    BlendValue(u, o, weight);
    if under <= over {
      RoundBetween(under as int, over as int, value);
    } else {
      RoundBetween(over as int, under as int, value);
    }
  }

  lemma BlendValue(u: real, o: real, weight: real)
    requires 0.0 <= weight <= 1.0
    ensures u <= o ==> u <= Mix(u, o, weight) <= o
    ensures o <= u ==> o <= Mix(u, o, weight) <= u
  {
    BlendIdentity(u, o, weight);
    if u <= o {
      NonnegativeProduct(o - u, weight);
      NonnegativeProduct(o - u, 1.0 - weight);
    }
    if o <= u {
      NonnegativeProduct(u - o, weight);
      NonnegativeProduct(u - o, 1.0 - weight);
    }
  }

  lemma BlendIdentity(u: real, o: real, weight: real)
    ensures Mix(u, o, weight) == u + (o - u) * weight == u - (u - o) * weight
    ensures Mix(u, o, weight) == o - (o - u) * (1.0 - weight) == o + (u - o) * (1.0 - weight)
  {
  }

  lemma RoundBetween(lo: int, hi: int, value: real)
    requires 0 <= lo <= hi <= 255 && lo as real <= value <= hi as real
    ensures lo <= Round(Clamped(value)) <= hi
  {
  }

  /** What the mask makes of one pixel at a distance. */
  function Masked(distance: real, under: Pixel, over: Pixel): Pixel {
    if distance >= FADE then under
    else
      var weight := Weight(distance);
      if weight >= 1.0 then over
      else
        Pixel(BlendChannel(under.r, over.r, weight), BlendChannel(under.g, over.g, weight),
              BlendChannel(under.b, over.b, weight), BlendChannel(under.a, over.a, weight))
  }

  ghost predicate PixelBetween(p: Pixel, under: Pixel, over: Pixel) {
    forall c: Channel ::
      || ChannelOf(under, c) <= ChannelOf(p, c) <= ChannelOf(over, c)
      || ChannelOf(over, c) <= ChannelOf(p, c) <= ChannelOf(under, c)
  }

  /** Outside the fade nothing changes, in the solid part the blur stands in full, in the band it is a blend. */
  lemma MaskedMeaning(distance: real, under: Pixel, over: Pixel)
    ensures distance >= FADE ==> Masked(distance, under, over) == under
    ensures distance <= SOLID ==> Masked(distance, under, over) == over
    ensures PixelBetween(Masked(distance, under, over), under, over)
  {
    WeightInUnit(distance);
    var weight := Weight(distance);
    BlendBetween(under.r, over.r, weight);
    BlendBetween(under.g, over.g, weight);
    BlendBetween(under.b, over.b, weight);
    BlendBetween(under.a, over.a, weight);
  }
}
