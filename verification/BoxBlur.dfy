/**
 The three-pass box blur.  The running sums of a pass are proved to compute, at every pixel, the mean over
 the clipped window weighted by alpha.
 */
module BoxBlur {
  import opened Bytes
  import opened Pixels

  datatype Channel = Red | Green | Blue | Alpha

  function ChannelOf(p: Pixel, c: Channel): nat {
    match c
    case Red => p.r as nat
    case Green => p.g as nat
    case Blue => p.b as nat
    case Alpha => p.a as nat
  }

  /** A colour multiplied by its alpha; alpha itself as it is. */
  function Weighted(p: Pixel, c: Channel): nat {
    if c.Alpha? then p.a as nat else ChannelOf(p, c) * p.a as nat
  }

  function Premultiplied(p: Pixel): (int, int, int, int) {
    (p.r as int * p.a as int, p.g as int * p.a as int, p.b as int * p.a as int, p.a as int)
  }

  /** A quotient clamped to 255 and stored in eight bits. */
  function Stored(n: nat): Byte { ((if n < 255 then n else 255) % 0x100) as Byte }

  function Unpremultiplied(red: nat, green: nat, blue: nat, alpha: nat, count: nat): Pixel {
    if count == 0 || alpha == 0 then CLEAR
    else Pixel(Stored(red / alpha), Stored(green / alpha), Stored(blue / alpha), (alpha / count % 0x100) as Byte)
  }

  // ---------- The windowed mean ----------

  /** Sum over the pixels `lo` to `hi`, the last not included. */
  function Sum(line: Line, c: Channel, lo: nat, hi: nat): nat
    requires lo <= hi <= |line|
    decreases hi
  {
    if lo == hi then 0 else Sum(line, c, lo, hi - 1) + Weighted(line[hi - 1], c)
  }

  function Lo(x: nat, radius: nat): nat { if x < radius then 0 else x - radius }

  function Hi(n: nat, x: nat, radius: nat): nat { if x + radius + 1 < n then x + radius + 1 else n }

  /** All pixels of the window with some opacity have channel values between `least` and `most`. */
  ghost predicate Within(line: Line, c: Channel, lo: nat, hi: nat, least: nat, most: nat)
    requires lo <= hi <= |line|
  {
    forall k :: lo <= k < hi && (c.Alpha? || line[k].a > 0) ==> least <= ChannelOf(line[k], c) <= most
  }

  /** The bounds on a sum of `n` units of weight. */
  predicate Bounded(least: nat, most: nat, n: nat, s: nat) { least * n <= s <= most * n }

  function Units(line: Line, c: Channel, lo: nat, hi: nat): nat
    requires lo <= hi <= |line|
  {
    if c.Alpha? then hi - lo else Sum(line, Alpha, lo, hi)
  }

  lemma {:induction false} SumBetween(line: Line, c: Channel, lo: nat, hi: nat, least: nat, most: nat)
    requires lo <= hi <= |line| && Within(line, c, lo, hi, least, most)
    ensures Bounded(least, most, Units(line, c, lo, hi), Sum(line, c, lo, hi))
    decreases hi
  {
    if lo < hi {
      var p := line[hi - 1];
      var a := if c.Alpha? then 1 else p.a as nat;
      SumBetween(line, c, lo, hi - 1, least, most);
      PixelBounded(p, c, least, most);
      SumStep(least, most, Units(line, c, lo, hi - 1), Sum(line, c, lo, hi - 1), a, Weighted(p, c));
    }
  }

  lemma PixelBounded(p: Pixel, c: Channel, least: nat, most: nat)
    requires c.Alpha? || p.a > 0 ==> least <= ChannelOf(p, c) <= most
    ensures Bounded(least, most, if c.Alpha? then 1 else p.a as nat, Weighted(p, c))
  {
    if p.a > 0 {
      ProductBetween(least, ChannelOf(p, c), most, p.a as nat);
    }
  }

  lemma SumStep(least: nat, most: nat, n: nat, s: nat, a: nat, more: nat)
    requires Bounded(least, most, n, s) && Bounded(least, most, a, more)
    ensures Bounded(least, most, n + a, s + more)
  {
    Distribute(least, n, a);
    Distribute(most, n, a);
  }

  lemma Distribute(m: nat, n: nat, a: nat)
    ensures m * (n + a) == m * n + m * a
  {
  }

  lemma ProductBetween(least: nat, v: nat, most: nat, a: nat)
    requires least <= v <= most
    ensures least * a <= v * a <= most * a
  {
  }

  lemma QuotientBetween(s: nat, n: nat, least: nat, most: nat)
    requires n > 0 && Bounded(least, most, n, s)
    ensures least <= s / n <= most
  {
    var q := s / n;
    Distribute(n, q, 1);
    Distribute(n, most, 1);
    if q < least {
      ProductBetween(0, q + 1, least, n);
    }
    if q > most {
      ProductBetween(0, most + 1, q, n);
    }
  }

  /** The weighted mean of one channel over a window. */
  function Mean(line: Line, c: Channel, lo: nat, hi: nat): nat
    requires lo < hi <= |line| && Sum(line, Alpha, lo, hi) > 0
  {
    if c.Alpha? then Sum(line, Alpha, lo, hi) / (hi - lo) else Sum(line, c, lo, hi) / Sum(line, Alpha, lo, hi)
  }

  /** A mean lies between the least and the greatest value that occurs in its window at some opacity. */
  lemma MeanBetween(line: Line, c: Channel, lo: nat, hi: nat, least: nat, most: nat)
    requires lo < hi <= |line| && Sum(line, Alpha, lo, hi) > 0
    requires Within(line, c, lo, hi, least, most)
    ensures least <= Mean(line, c, lo, hi) <= most
  {
    SumBetween(line, c, lo, hi, least, most);
    QuotientBetween(Sum(line, c, lo, hi), Units(line, c, lo, hi), least, most);
  }

  lemma MeanIsByte(line: Line, c: Channel, lo: nat, hi: nat)
    requires lo < hi <= |line| && Sum(line, Alpha, lo, hi) > 0
    ensures Mean(line, c, lo, hi) < 256
  {
    MeanBetween(line, c, lo, hi, 0, 255);
  }

  /** The alpha-weighted mean over the window around `x`, clear where the window is. */
  function Blurred(line: Line, x: nat, radius: nat): Pixel
    requires x < |line|
  {
    var lo, hi := Lo(x, radius), Hi(|line|, x, radius);
    if Sum(line, Alpha, lo, hi) == 0 then CLEAR
    else
      MeanIsByte(line, Red, lo, hi);
      MeanIsByte(line, Green, lo, hi);
      MeanIsByte(line, Blue, lo, hi);
      MeanIsByte(line, Alpha, lo, hi);
      Pixel(Mean(line, Red, lo, hi) as Byte, Mean(line, Green, lo, hi) as Byte,
            Mean(line, Blue, lo, hi) as Byte, Mean(line, Alpha, lo, hi) as Byte)
  }

  /** A sum over the integers from `lo` to `hi`, the last not included. */
  function Summed(f: int -> nat, lo: int, hi: int): nat
    decreases hi - lo
  {
    if lo >= hi then 0 else f(lo) + Summed(f, lo + 1, hi)
  }

  /** A colour times alpha at each place, and alpha alone. */
  function Colours(line: Line, colour: Pixel -> nat): int -> nat {
    (k: int) => if 0 <= k < |line| then colour(line[k]) * line[k].a as nat else 0
  }

  function Alphas(line: Line): int -> nat { (k: int) => if 0 <= k < |line| then line[k].a as nat else 0 }

  lemma {:induction false} SummedFrom(line: Line, c: Channel, f: int -> nat, lo: nat, hi: nat)
    requires lo <= hi <= |line| && forall k :: lo <= k < hi ==> f(k) == Weighted(line[k], c)
    ensures Sum(line, c, lo, hi) == Summed(f, lo, hi)
    decreases hi - lo
  {
    if lo < hi {
      DropFirst(line, c, lo, hi);
      SummedFrom(line, c, f, lo + 1, hi);
    }
  }

  /**
   What blurring means in plain terms: over the pixels at most `radius` away in the line, colours are averaged with
   their alpha as weight and alpha without; a window without any opacity becomes clear.
   */
  lemma BlurredMeaning(line: Line, x: nat, radius: nat)
    requires x < |line|
    ensures var lo, hi := if x > radius then x - radius else 0, if x + radius < |line| then x + radius + 1 else |line|;
            var alpha, p := Summed(Alphas(line), lo, hi), Blurred(line, x, radius);
            if alpha == 0 then p == Pixel(0, 0, 0, 0)
            else && p.r as nat == Summed(Colours(line, (q: Pixel) => q.r as nat), lo, hi) / alpha
                 && p.g as nat == Summed(Colours(line, (q: Pixel) => q.g as nat), lo, hi) / alpha
                 && p.b as nat == Summed(Colours(line, (q: Pixel) => q.b as nat), lo, hi) / alpha
                 && p.a as nat == alpha / (hi - lo)
  {
    var lo, hi := Lo(x, radius), Hi(|line|, x, radius);
    SummedFrom(line, Red, Colours(line, (q: Pixel) => q.r as nat), lo, hi);
    SummedFrom(line, Green, Colours(line, (q: Pixel) => q.g as nat), lo, hi);
    SummedFrom(line, Blue, Colours(line, (q: Pixel) => q.b as nat), lo, hi);
    SummedFrom(line, Alpha, Alphas(line), lo, hi);
    if Sum(line, Alpha, lo, hi) > 0 {
      MeanIsByte(line, Red, lo, hi);
      MeanIsByte(line, Green, lo, hi);
      MeanIsByte(line, Blue, lo, hi);
      MeanIsByte(line, Alpha, lo, hi);
    }
  }

  /** A blurred channel lies between the least and the greatest value in its window at some opacity. */
  lemma BlurredBetween(line: Line, x: nat, radius: nat, c: Channel, least: nat, most: nat)
    requires x < |line|
    requires Within(line, c, Lo(x, radius), Hi(|line|, x, radius), least, most)
    requires exists k :: Lo(x, radius) <= k < Hi(|line|, x, radius) && line[k].a > 0
    ensures least <= ChannelOf(Blurred(line, x, radius), c) <= most
  {
    var lo, hi := Lo(x, radius), Hi(|line|, x, radius);
    var k :| lo <= k < hi && line[k].a > 0;
    SomeOpacity(line, lo, hi, k);
    MeanBetween(line, c, lo, hi, least, most);
    MeanIsByte(line, c, lo, hi);
  }

  lemma {:induction false} SomeOpacity(line: Line, lo: nat, hi: nat, k: nat)
    requires lo <= k < hi <= |line| && line[k].a > 0
    ensures Sum(line, Alpha, lo, hi) > 0
    decreases hi
  {
    if k < hi - 1 {
      SomeOpacity(line, lo, hi - 1, k);
    }
  }

  lemma StoredMean(line: Line, c: Channel, lo: nat, hi: nat)
    requires lo < hi <= |line| && Sum(line, Alpha, lo, hi) > 0
    ensures Mean(line, c, lo, hi) < 256 && Stored(Mean(line, c, lo, hi)) as nat == Mean(line, c, lo, hi)
    ensures Mean(line, c, lo, hi) % 0x100 == Mean(line, c, lo, hi)
  {
    MeanIsByte(line, c, lo, hi);
  }

  /** Neither the clamp nor the narrowing to eight bits changes a value. */
  lemma NoClamp(line: Line, x: nat, radius: nat)
    requires x < |line|
    ensures Blurred(line, x, radius) == (
              var lo, hi := Lo(x, radius), Hi(|line|, x, radius);
              Unpremultiplied(Sum(line, Red, lo, hi), Sum(line, Green, lo, hi), Sum(line, Blue, lo, hi),
                              Sum(line, Alpha, lo, hi), hi - lo))
  {
    var lo, hi := Lo(x, radius), Hi(|line|, x, radius);
    if Sum(line, Alpha, lo, hi) > 0 {
      StoredMean(line, Red, lo, hi);
      StoredMean(line, Green, lo, hi);
      StoredMean(line, Blue, lo, hi);
      StoredMean(line, Alpha, lo, hi);
    }
  }

  // ---------- Sliding the window ----------

  lemma {:induction false} DropFirst(line: Line, c: Channel, lo: nat, hi: nat)
    requires lo < hi <= |line|
    ensures Sum(line, c, lo, hi) == Weighted(line[lo], c) + Sum(line, c, lo + 1, hi)
    decreases hi
  {
    if lo + 1 < hi {
      DropFirst(line, c, lo, hi - 1);
    }
  }

  /** The sums of the window around `x + 1` from those of the window around `x`. */
  lemma Slide(line: Line, c: Channel, x: nat, radius: nat)
    requires x + 1 < |line|
    ensures Sum(line, c, Lo(x + 1, radius), Hi(|line|, x + 1, radius))
         == Sum(line, c, Lo(x, radius), Hi(|line|, x, radius))
            - (if x >= radius then Weighted(line[x - radius], c) else 0)
            + (if x + radius + 1 < |line| then Weighted(line[x + radius + 1], c) else 0)
  {
    var lo, hi := Lo(x, radius), Hi(|line|, x, radius);
    if x >= radius {
      DropFirst(line, c, lo, hi);
    }
  }

  /** The running sums of a pass. */
  datatype Sums = Sums(red: int, green: int, blue: int, alpha: int, count: int)

  function WindowSums(line: Line, lo: nat, hi: nat): Sums
    requires lo <= hi <= |line|
  {
    Sums(Sum(line, Red, lo, hi), Sum(line, Green, lo, hi), Sum(line, Blue, lo, hi), Sum(line, Alpha, lo, hi), hi - lo)
  }

  function Plus(s: Sums, p: Pixel): Sums {
    var (r, g, b, a) := Premultiplied(p);
    Sums(s.red + r, s.green + g, s.blue + b, s.alpha + a, s.count + 1)
  }

  function Minus(s: Sums, p: Pixel): Sums {
    var (r, g, b, a) := Premultiplied(p);
    Sums(s.red - r, s.green - g, s.blue - b, s.alpha - a, s.count - 1)
  }

  function BlurredLine(line: Line, radius: nat): (r: Line)
    ensures |r| == |line| && forall x :: 0 <= x < |line| ==> r[x] == Blurred(line, x, radius)
  {
    seq(|line|, x requires 0 <= x < |line| => Blurred(line, x, radius))
  }

  /** Every row blurred on its own. */
  function HorizontalBlur(img: Image, h: nat, w: nat, radius: nat): (r: Image)
    requires Rectangular(img, h, w)
    ensures Rectangular(r, h, w)
    ensures forall y, x :: 0 <= y < h && 0 <= x < w ==> r[y][x] == Blurred(img[y], x, radius)
  {
    seq(h, y requires 0 <= y < h => BlurredLine(img[y], radius))
  }

  /** Every column blurred on its own. */
  function VerticalBlur(img: Image, h: nat, w: nat, radius: nat): (r: Image)
    requires Rectangular(img, h, w)
    ensures Rectangular(r, h, w)
    ensures forall y, x :: 0 <= y < h && 0 <= x < w ==> r[y][x] == Blurred(Column(img, h, w, x), y, radius)
  {
    seq(h, y requires 0 <= y < h => seq(w, x requires 0 <= x < w => Blurred(Column(img, h, w, x), y, radius)))
  }

  /** The sums slide along one row. */
  method BlurRow(src: array2<Pixel>, dst: array2<Pixel>, y: nat, radius: nat)
    requires src != dst && dst.Length0 == src.Length0 && dst.Length1 == src.Length1 && y < src.Length0
    modifies dst
    ensures forall u :: 0 <= u < src.Length1 ==> dst[y, u] == Blurred(Value(src)[y], u, radius)
    ensures forall v, u :: 0 <= v < src.Length0 && v != y && 0 <= u < src.Length1 ==> dst[v, u] == old(dst[v, u])
  {
    var w := src.Length1;
    ghost var line := Value(src)[y];
    var sums := RowStart(src, y, radius);
    var x := 0;
    while x < w
      invariant 0 <= x <= w
      invariant x < w ==> sums == WindowSums(line, Lo(x, radius), Hi(w, x, radius))
      invariant forall u :: 0 <= u < x ==> dst[y, u] == Blurred(line, u, radius)
      invariant forall v, u :: 0 <= v < src.Length0 && v != y && 0 <= u < w ==> dst[v, u] == old(dst[v, u])
    {
      assert Unpremultiplied(sums.red, sums.green, sums.blue, sums.alpha, sums.count) == Blurred(line, x, radius) by {
        NoClamp(line, x, radius);
      }
      dst[y, x] := Unpremultiplied(sums.red, sums.green, sums.blue, sums.alpha, sums.count);
      sums := SlideRow(src, y, x, radius, sums);
      x := x + 1;
    }
  }

  /** The sums of the first window of a row. */
  method RowStart(src: array2<Pixel>, y: nat, radius: nat) returns (sums: Sums)
    requires y < src.Length0
    ensures sums == WindowSums(Value(src)[y], 0, Hi(src.Length1, 0, radius))
  {
    ghost var line := Value(src)[y];
    sums := Sums(0, 0, 0, 0, 0);
    var x := 0;
    while x < src.Length1 && x <= radius
      invariant 0 <= x <= src.Length1 && x <= radius + 1
      invariant sums == WindowSums(line, 0, x)
    {
      sums := Plus(sums, src[y, x]);
      x := x + 1;
    }
  }

  /** One pixel leaves the window and one enters it. */
  method SlideRow(src: array2<Pixel>, y: nat, x: nat, radius: nat, now: Sums) returns (sums: Sums)
    requires y < src.Length0 && x < src.Length1
    requires now == WindowSums(Value(src)[y], Lo(x, radius), Hi(src.Length1, x, radius))
    ensures x + 1 < src.Length1 ==> sums == WindowSums(Value(src)[y], Lo(x + 1, radius), Hi(src.Length1, x + 1, radius))
  {
    sums := now;
    if x + 1 < src.Length1 {
      SlideAll(Value(src)[y], x, radius);
    }
    if x >= radius {
      sums := Minus(sums, src[y, x - radius]);
    }
    if x + radius + 1 < src.Length1 {
      sums := Plus(sums, src[y, x + radius + 1]);
    }
  }

  method BoxBlurHorizontal(src: array2<Pixel>, radius: nat) returns (dst: array2<Pixel>)
    ensures fresh(dst) && dst.Length0 == src.Length0 && dst.Length1 == src.Length1
    ensures Value(dst) == HorizontalBlur(Value(src), src.Length0, src.Length1, radius)
  {
    var h, w := src.Length0, src.Length1;
    dst := new Pixel[h, w]((y, x) => CLEAR);
    ghost var img := Value(src);
    for y := 0 to h
      invariant Value(src) == img
      invariant forall v, u :: 0 <= v < y && 0 <= u < w ==> dst[v, u] == Blurred(img[v], u, radius)
    {
      BlurRow(src, dst, y, radius);
    }
    SameImage(Value(dst), HorizontalBlur(img, h, w, radius), h, w);
  }

  /** The line is that column of the image. */
  ghost predicate IsColumn(line: Line, src: array2<Pixel>, x: nat)
    requires x < src.Length1
    reads src
  {
    |line| == src.Length0 && forall v :: 0 <= v < src.Length0 ==> line[v] == src[v, x]
  }

  /** The sums slide along one column. */
  method BlurColumn(src: array2<Pixel>, dst: array2<Pixel>, x: nat, radius: nat, ghost line: Line)
    requires src != dst && dst.Length0 == src.Length0 && dst.Length1 == src.Length1 && x < src.Length1
    requires IsColumn(line, src, x)
    modifies dst
    ensures forall v :: 0 <= v < src.Length0 ==> dst[v, x] == Blurred(line, v, radius)
    ensures forall v, u :: 0 <= v < src.Length0 && u != x && 0 <= u < src.Length1 ==> dst[v, u] == old(dst[v, u])
  {
    var h := src.Length0;
    var sums := ColumnStart(src, x, radius, line);
    var y := 0;
    while y < h
      invariant 0 <= y <= h
      invariant y < h ==> sums == WindowSums(line, Lo(y, radius), Hi(h, y, radius))
      invariant forall v :: 0 <= v < y ==> dst[v, x] == Blurred(line, v, radius)
      invariant forall v, u :: 0 <= v < h && u != x && 0 <= u < src.Length1 ==> dst[v, u] == old(dst[v, u])
    {
      assert Unpremultiplied(sums.red, sums.green, sums.blue, sums.alpha, sums.count) == Blurred(line, y, radius) by {
        NoClamp(line, y, radius);
      }
      dst[y, x] := Unpremultiplied(sums.red, sums.green, sums.blue, sums.alpha, sums.count);
      sums := SlideColumn(src, x, y, radius, sums, line);
      y := y + 1;
    }
  }

  /** The sums of the first window of a column. */
  method ColumnStart(src: array2<Pixel>, x: nat, radius: nat, ghost line: Line) returns (sums: Sums)
    requires x < src.Length1 && IsColumn(line, src, x)
    ensures sums == WindowSums(line, 0, Hi(src.Length0, 0, radius))
  {
    sums := Sums(0, 0, 0, 0, 0);
    var y := 0;
    while y < src.Length0 && y <= radius
      invariant 0 <= y <= src.Length0 && y <= radius + 1
      invariant sums == WindowSums(line, 0, y)
    {
      sums := Plus(sums, src[y, x]);
      y := y + 1;
    }
  }

  method SlideColumn(src: array2<Pixel>, x: nat, y: nat, radius: nat, now: Sums, ghost line: Line) returns (sums: Sums)
    requires y < src.Length0 && x < src.Length1 && IsColumn(line, src, x)
    requires now == WindowSums(line, Lo(y, radius), Hi(src.Length0, y, radius))
    ensures y + 1 < src.Length0 ==> sums == WindowSums(line, Lo(y + 1, radius), Hi(src.Length0, y + 1, radius))
  {
    sums := now;
    if y + 1 < src.Length0 {
      SlideAll(line, y, radius);
    }
    if y >= radius {
      sums := Minus(sums, src[y - radius, x]);
    }
    if y + radius + 1 < src.Length0 {
      sums := Plus(sums, src[y + radius + 1, x]);
    }
  }

  method BoxBlurVertical(src: array2<Pixel>, radius: nat) returns (dst: array2<Pixel>)
    ensures fresh(dst) && dst.Length0 == src.Length0 && dst.Length1 == src.Length1
    ensures Value(dst) == VerticalBlur(Value(src), src.Length0, src.Length1, radius)
  {
    var h, w := src.Length0, src.Length1;
    dst := new Pixel[h, w]((y, x) => CLEAR);
    ghost var img := Value(src);
    for x := 0 to w
      invariant Value(src) == img
      invariant forall v, u :: 0 <= v < h && 0 <= u < x ==> dst[v, u] == Blurred(Column(img, h, w, u), v, radius)
    {
      BlurColumn(src, dst, x, radius, Column(img, h, w, x));
    }
    SameImage(Value(dst), VerticalBlur(img, h, w, radius), h, w);
  }

  /** `Slide` for every channel, and nothing is removed that was not counted. */
  lemma SlideAll(line: Line, x: nat, radius: nat)
    requires x + 1 < |line|
    ensures WindowSums(line, Lo(x + 1, radius), Hi(|line|, x + 1, radius)) == (
              var now := WindowSums(line, Lo(x, radius), Hi(|line|, x, radius));
              var less := if x >= radius then Minus(now, line[x - radius]) else now;
              if x + radius + 1 < |line| then Plus(less, line[x + radius + 1]) else less)
  {
    Slide(line, Red, x, radius);
    Slide(line, Green, x, radius);
    Slide(line, Blue, x, radius);
    Slide(line, Alpha, x, radius);
  }

  // ---------- The whole blur ----------

  const PASSES: nat := 3

  /** Three passes in each direction; a radius of zero or less changes nothing. */
  function Blur(img: Image, h: nat, w: nat, radius: int): (r: Image)
    requires Rectangular(img, h, w)
    ensures Rectangular(r, h, w)
  {
    if radius <= 0 then img else Passes(img, h, w, radius, PASSES)
  }

  function Passes(img: Image, h: nat, w: nat, radius: nat, n: nat): (r: Image)
    requires Rectangular(img, h, w)
    ensures Rectangular(r, h, w)
  {
    if n == 0 then img else Pass(Passes(img, h, w, radius, n - 1), h, w, radius)
  }

  function Pass(img: Image, h: nat, w: nat, radius: nat): (r: Image)
    requires Rectangular(img, h, w)
    ensures Rectangular(r, h, w)
  {
    VerticalBlur(HorizontalBlur(img, h, w, radius), h, w, radius)
  }

  /** One pass, pixel by pixel: the mean along a column of the means along the rows. */
  ghost predicate IsPass(before: Image, after: Image, h: nat, w: nat, radius: nat) {
    && Rectangular(before, h, w) && Rectangular(after, h, w)
    && forall y, x :: 0 <= y < h && 0 <= x < w ==>
         after[y][x] == Blurred(seq(h, v requires 0 <= v < h => Blurred(before[v], x, radius)), y, radius)
  }

  /** Three passes for a positive radius, and nothing for any other. */
  ghost predicate IsBlurOf(before: Image, after: Image, h: nat, w: nat, radius: int) {
    if radius <= 0 then after == before
    else exists a, b :: IsPass(before, a, h, w, radius) && IsPass(a, b, h, w, radius) && IsPass(b, after, h, w, radius)
  }

  lemma PassMeaning(img: Image, h: nat, w: nat, radius: nat)
    requires Rectangular(img, h, w)
    ensures IsPass(img, Pass(img, h, w, radius), h, w, radius)
  {
    var rows := HorizontalBlur(img, h, w, radius);
    forall y, x | 0 <= y < h && 0 <= x < w
      ensures Pass(img, h, w, radius)[y][x]
           == Blurred(seq(h, v requires 0 <= v < h => Blurred(img[v], x, radius)), y, radius)
    {
      assert Column(rows, h, w, x) == seq(h, v requires 0 <= v < h => Blurred(img[v], x, radius));
    }
  }

  lemma BlurMeaning(img: Image, h: nat, w: nat, radius: int)
    requires Rectangular(img, h, w)
    ensures IsBlurOf(img, Blur(img, h, w, radius), h, w, radius)
  {
    if radius > 0 {
      var a := Pass(img, h, w, radius);
      var b := Pass(a, h, w, radius);
      PassMeaning(img, h, w, radius);
      PassMeaning(a, h, w, radius);
      PassMeaning(b, h, w, radius);
      ThreePasses(img, h, w, radius);
    }
  }

  method BlurNRGBA(src: array2<Pixel>, radius: int) returns (result: array2<Pixel>)
    ensures fresh(result) && result.Length0 == src.Length0 && result.Length1 == src.Length1
    ensures Value(result) == Blur(Value(src), src.Length0, src.Length1, radius)
    ensures IsBlurOf(Value(src), Value(result), src.Length0, src.Length1, radius)
  {
    BlurMeaning(Value(src), src.Length0, src.Length1, radius);
    result := Clone(src);
    if radius <= 0 {
      return;
    }
    ghost var img := Value(src);
    for i := 0 to PASSES
      invariant fresh(result) && result.Length0 == src.Length0 && result.Length1 == src.Length1
      invariant Value(result) == Passes(img, src.Length0, src.Length1, radius, i)
    {
      result := BoxBlurHorizontal(result, radius);
      result := BoxBlurVertical(result, radius);
    }
  }

  /** The vertical pass is the horizontal pass seen with rows and columns exchanged. */
  lemma VerticalIsTransposedHorizontal(img: Image, h: nat, w: nat, radius: nat)
    requires Rectangular(img, h, w)
    ensures VerticalBlur(img, h, w, radius)
         == Transpose(HorizontalBlur(Transpose(img, h, w), w, h, radius), w, h)
  {
    var t := Transpose(img, h, w);
    forall x | 0 <= x < w ensures t[x] == Column(img, h, w, x) {
    }
    SameImage(VerticalBlur(img, h, w, radius), Transpose(HorizontalBlur(t, w, h, radius), w, h), h, w);
  }

  // ---------- How far a pixel reaches ----------

  lemma {:induction false} SameSum(a: Line, b: Line, c: Channel, lo: nat, hi: nat)
    requires |a| == |b| && lo <= hi <= |a| && forall k :: lo <= k < hi ==> a[k] == b[k]
    ensures Sum(a, c, lo, hi) == Sum(b, c, lo, hi)
    decreases hi
  {
    if lo < hi {
      SameSum(a, b, c, lo, hi - 1);
    }
  }

  /** The mean around `x` depends on no pixel further than the radius. */
  lemma SameBlurred(a: Line, b: Line, x: nat, radius: nat)
    requires |a| == |b| && x < |a|
    requires forall k :: 0 <= k < |a| && x - radius <= k <= x + radius ==> a[k] == b[k]
    ensures Blurred(a, x, radius) == Blurred(b, x, radius)
  {
    var lo, hi := Lo(x, radius), Hi(|a|, x, radius);
    SameSum(a, b, Red, lo, hi);
    SameSum(a, b, Green, lo, hi);
    SameSum(a, b, Blue, lo, hi);
    SameSum(a, b, Alpha, lo, hi);
  }

  /** The images agree at every pixel of theirs that is at most `reach` away from (y, x) in each direction. */
  ghost predicate AgreeAround(a: Image, b: Image, h: nat, w: nat, y: int, x: int, reach: nat)
    requires Rectangular(a, h, w) && Rectangular(b, h, w)
  {
    forall v, u :: 0 <= v < h && 0 <= u < w && y - reach <= v <= y + reach && x - reach <= u <= x + reach ==>
      a[v][u] == b[v][u]
  }

  lemma PassReach(a: Image, b: Image, h: nat, w: nat, radius: nat, y: int, x: int, reach: nat)
    requires Rectangular(a, h, w) && Rectangular(b, h, w)
    requires AgreeAround(a, b, h, w, y, x, reach + radius)
    ensures AgreeAround(Pass(a, h, w, radius), Pass(b, h, w, radius), h, w, y, x, reach)
  {
    var ha, hb := HorizontalBlur(a, h, w, radius), HorizontalBlur(b, h, w, radius);
    forall v, u | 0 <= v < h && 0 <= u < w
                  && y - reach - radius <= v <= y + reach + radius && x - reach <= u <= x + reach
      ensures ha[v][u] == hb[v][u]
    {
      SameBlurred(a[v], b[v], u, radius);
    }
    forall v, u | 0 <= v < h && 0 <= u < w && y - reach <= v <= y + reach && x - reach <= u <= x + reach
      ensures Blurred(Column(ha, h, w, u), v, radius) == Blurred(Column(hb, h, w, u), v, radius)
    {
      SameBlurred(Column(ha, h, w, u), Column(hb, h, w, u), v, radius);
    }
  }

  /** A blurred pixel depends only on pixels within three radii of it along each axis. */
  lemma BlurReach(a: Image, b: Image, h: nat, w: nat, radius: nat, y: nat, x: nat)
    requires Rectangular(a, h, w) && Rectangular(b, h, w) && y < h && x < w
    requires AgreeAround(a, b, h, w, y, x, 3 * radius)
    ensures Blur(a, h, w, radius)[y][x] == Blur(b, h, w, radius)[y][x]
  {
    var a1, b1 := Pass(a, h, w, radius), Pass(b, h, w, radius);
    var a2, b2 := Pass(a1, h, w, radius), Pass(b1, h, w, radius);
    var a3, b3 := Pass(a2, h, w, radius), Pass(b2, h, w, radius);
    PassReach(a, b, h, w, radius, y, x, 2 * radius);
    PassReach(a1, b1, h, w, radius, y, x, radius);
    PassReach(a2, b2, h, w, radius, y, x, 0);
    assert a3[y][x] == b3[y][x];
    if radius > 0 {
      ThreePasses(a, h, w, radius);
      ThreePasses(b, h, w, radius);
    }
  }

  lemma ThreePasses(img: Image, h: nat, w: nat, radius: nat)
    requires Rectangular(img, h, w) && radius > 0
    ensures Blur(img, h, w, radius) == Pass(Pass(Pass(img, h, w, radius), h, w, radius), h, w, radius)
  {
    assert Passes(img, h, w, radius, 0) == img;
    assert Passes(img, h, w, radius, 1) == Pass(img, h, w, radius);
    assert Passes(img, h, w, radius, 2) == Pass(Pass(img, h, w, radius), h, w, radius);
  }
}
